/** The PL/Java binary writer for JTS geometries. It writes a geometry as a
    stream of typed fields: a type byte, an optional SRID, then a body that
    depends on the geometry class. A separate estimator predicts how many
    bytes the stream will take. */
module JtsWriter {
  import opened Wrappers

  // WKB type codes of org.postgis.Geometry
  const POINT: bv8 := 1
  const LINESTRING: bv8 := 2
  const POLYGON: bv8 := 3
  const MULTIPOINT: bv8 := 4
  const MULTILINESTRING: bv8 := 5
  const MULTIPOLYGON: bv8 := 6
  const GEOMETRYCOLLECTION: bv8 := 7

  datatype Coord = Coord(x: real, y: real)

  /** A JTS geometry. Each constructor is one concrete JTS class. OtherGeometry
      is any other Geometry subclass. A Point has no coordinate when it is
      empty. Polygon rings are LinearRings, so only their coordinates are
      kept. */
  datatype Geom =
    | Point(srid: int, coord: Option<Coord>)
    | LineString(srid: int, coords: seq<Coord>)
    | LinearRing(srid: int, coords: seq<Coord>)
    | Polygon(srid: int, shell: seq<Coord>, holes: seq<seq<Coord>>)
    | MultiPoint(srid: int, parts: seq<Geom>)
    | MultiLineString(srid: int, parts: seq<Geom>)
    | MultiPolygon(srid: int, parts: seq<Geom>)
    | GeometryCollection(srid: int, parts: seq<Geom>)
    | OtherGeometry(srid: int)
  {
    predicate IsCollection() {
      MultiPoint? || MultiLineString? || MultiPolygon? || GeometryCollection?
    }
  }

  /** The JTS classes that getWKBType tests with instanceof. */
  datatype JtsClass =
    PointClass | LineStringClass | PolygonClass | MultiPointClass
    | MultiLineStringClass | MultiPolygonClass | GeometryCollectionClass

  /** JTS subclassing: LinearRing extends LineString, and every Multi* class
      extends GeometryCollection. */
  predicate InstanceOf(g: Geom, c: JtsClass) {
    match c
    case PointClass => g.Point?
    case LineStringClass => g.LineString? || g.LinearRing?
    case PolygonClass => g.Polygon?
    case MultiPointClass => g.MultiPoint?
    case MultiLineStringClass => g.MultiLineString?
    case MultiPolygonClass => g.MultiPolygon?
    case GeometryCollectionClass => g.IsCollection()
  }

  /** getWKBType: the instanceof tests in their fixed order. The first match
      wins, and no match is an IllegalArgumentException (None). */
  function WkbType(g: Geom): (r: Option<bv8>)
    ensures r.None? <==> g.OtherGeometry?
    ensures g.Point? ==> r == Some(POINT)
    ensures g.LineString? || g.LinearRing? ==> r == Some(LINESTRING)
    ensures g.Polygon? ==> r == Some(POLYGON)
    ensures g.MultiPoint? ==> r == Some(MULTIPOINT)
    ensures g.MultiLineString? ==> r == Some(MULTILINESTRING)
    ensures g.MultiPolygon? ==> r == Some(MULTIPOLYGON)
    ensures g.GeometryCollection? ==> r == Some(GEOMETRYCOLLECTION)
  {
    if InstanceOf(g, PointClass) then Some(POINT)
    else if InstanceOf(g, LineStringClass) then Some(LINESTRING)
    else if InstanceOf(g, PolygonClass) then Some(POLYGON)
    else if InstanceOf(g, MultiPointClass) then Some(MULTIPOINT)
    else if InstanceOf(g, MultiLineStringClass) then Some(MULTILINESTRING)
    else if InstanceOf(g, MultiPolygonClass) then Some(MULTIPOLYGON)
    else if InstanceOf(g, GeometryCollectionClass) then Some(GEOMETRYCOLLECTION)
    else None
  }

  /** getCoordDim: 0 for a null geometry and 2 for every other one. */
  function CoordDim(g: Option<Geom>): (d: int)
    ensures d == 0 || d == 2
    ensures d == 2 <==> g.Some?
  {
    if g.None? then 0 else 2
  }

  /** checkSrid: JTS uses 0 as its default SRID, and PostGIS uses -1 for
      "unknown". Neither is written. */
  predicate CheckSrid(g: Geom) {
    g.srid != -1 && g.srid != 0
  }

  /** The type byte: the plain type code, with 0x20 set for 3 or 4
      dimensions, 0x10 for 4 dimensions, and 0x40 when an SRID follows. */
  function TypeWord(plaintype: bv8, dim: int, hasSrid: bool): (w: bv8)
    requires plaintype < 0x10
    ensures w & 0x0F == plaintype
    ensures (w & 0x20 != 0) <==> (dim == 3 || dim == 4)
    ensures (w & 0x10 != 0) <==> dim == 4
    ensures (w & 0x40 != 0) <==> hasSrid
    ensures w & 0x80 == 0
  {
    var zbit: bv8 := if dim == 3 || dim == 4 then 0x20 else 0;
    var mbit: bv8 := if dim == 4 then 0x10 else 0;
    var sbit: bv8 := if hasSrid then 0x40 else 0;
    plaintype | zbit | mbit | sbit
  }

  /** One value written to the SQLOutput stream. */
  datatype Field = Byte(b: bv8) | Int(i: int) | Double(d: real)

  function FieldSize(f: Field): nat {
    match f
    case Byte(_) => 1
    case Int(_) => 4
    case Double(_) => 8
  }

  function ByteCount(fs: seq<Field>): nat {
    if fs == [] then 0 else ByteCount(fs[..|fs| - 1]) + FieldSize(fs[|fs| - 1])
  }

  lemma {:induction false} ByteCountAppend(a: seq<Field>, b: seq<Field>)
    ensures ByteCount(a + b) == ByteCount(a) + ByteCount(b)
    decreases |b|
  {
    if b == [] {
      assert a + b == a;
    } else {
      assert (a + b)[..|a + b| - 1] == a + b[..|b| - 1];
      ByteCountAppend(a, b[..|b| - 1]);
    }
  }

  /** What a write leaves in the stream, and whether it finished without
      throwing. A throw leaves the fields written before it in the stream. */
  datatype Emitted = Emitted(fields: seq<Field>, ok: bool)

  /** The ordinates of a coordinate sequence, `dims` = 2 doubles per point. */
  function CoordFields(cs: seq<Coord>): (fs: seq<Field>)
    ensures |fs| == 2 * |cs|
    ensures forall i :: 0 <= i < |cs| ==> fs[2 * i] == Double(cs[i].x) && fs[2 * i + 1] == Double(cs[i].y)
  {
    if cs == [] then [] else CoordFields(cs[..|cs| - 1]) + [Double(cs[|cs| - 1].x), Double(cs[|cs| - 1].y)]
  }

  /** A LineString body, also used for every polygon ring. */
  function LineFields(cs: seq<Coord>): seq<Field> {
    [Int(|cs|)] + CoordFields(cs)
  }

  function RingsFields(rings: seq<seq<Coord>>): seq<Field> {
    if rings == [] then [] else RingsFields(rings[..|rings| - 1]) + LineFields(rings[|rings| - 1])
  }

  /** getNumPoints: the number of coordinates in the geometry and all its
      parts. */
  function NumPoints(g: Geom): nat
    decreases g, 1
  {
    match g
    case Point(_, c) => if c.Some? then 1 else 0
    case LineString(_, cs) => |cs|
    case LinearRing(_, cs) => |cs|
    case Polygon(_, shell, holes) => |shell| + RingPoints(holes)
    case OtherGeometry(_) => 0
    case _ => PartPoints(g, |g.parts|)
  }

  function RingPoints(rings: seq<seq<Coord>>): nat {
    if rings == [] then 0 else RingPoints(rings[..|rings| - 1]) + |rings[|rings| - 1]|
  }

  function PartPoints(g: Geom, n: nat): nat
    requires g.IsCollection() && n <= |g.parts|
    decreases g, 0, n
  {
    if n == 0 then 0 else PartPoints(g, n - 1) + NumPoints(g.parts[n - 1])
  }

  /** The type byte and the optional SRID that start every written geometry.
      The dimension is getCoordDim of a non-null geometry. */
  function Header(g: Geom, t: bv8): seq<Field>
    requires t < 0x10
  {
    [Byte(TypeWord(t, CoordDim(Some(g)), CheckSrid(g)))] + (if CheckSrid(g) then [Int(g.srid)] else [])
  }

  /** writeGeometry as a function of the geometry: nothing is written for a
      class getWKBType does not know. */
  function Emit(g: Geom): Emitted
    decreases g, 2
  {
    match g
    case OtherGeometry(_) => Emitted([], false)
    case _ =>
      var b := Body(g);
      Emitted(Header(g, WkbType(g).value) + b.fields, b.ok)
  }

  /** Nothing is written for a class getWKBType does not know; anything
      else starts with its type byte, then its SRID when checkSrid holds. */
  lemma EmitHeader(g: Geom)
    ensures g.OtherGeometry? <==> Emit(g).fields == []
    ensures g.OtherGeometry? ==> !Emit(g).ok
    ensures !g.OtherGeometry? ==> Emit(g).fields[0] == Byte(TypeWord(WkbType(g).value, 2, CheckSrid(g)))
    ensures !g.OtherGeometry? && CheckSrid(g) ==> |Emit(g).fields| >= 2 && Emit(g).fields[1] == Int(g.srid)
  {
  }

  /** The switch on the type code in writeGeometry. */
  function Body(g: Geom): Emitted
    requires !g.OtherGeometry?
    decreases g, 1
  {
    match g
    case Point(_, c) => Emitted(if c.Some? then CoordFields([c.value]) else [], true)
    case LineString(_, cs) => Emitted(LineFields(cs), true)
    case LinearRing(_, cs) => Emitted(LineFields(cs), true)
    case Polygon(_, shell, holes) =>
      Emitted([Int(|holes| + 1)] + LineFields(shell) + RingsFields(holes), true)
    case MultiPoint(_, parts) =>
      // writeMultiPoint counts points, not parts
      var e := EmitParts(g, NumPoints(g));
      Emitted([Int(NumPoints(g))] + e.fields, e.ok)
    case MultiLineString(_, parts) =>
      var e := EmitParts(g, |parts|);
      Emitted([Int(|parts|)] + e.fields, e.ok)
    case MultiPolygon(_, parts) =>
      var e := EmitParts(g, |parts|);
      Emitted([Int(|parts|)] + e.fields, e.ok)
    case GeometryCollection(_, parts) =>
      var e := EmitParts(g, |parts|);
      Emitted([Int(|parts|)] + e.fields, e.ok)
  }

  /** The loop that writes parts 0 .. n-1, stopping at the first throw. A
      part index past the end is getGeometryN's out-of-bounds throw. */
  function EmitParts(g: Geom, n: nat): Emitted
    requires g.IsCollection()
    decreases g, 0, n
  {
    if n == 0 then Emitted([], true)
    else
      var e := EmitParts(g, n - 1);
      if !e.ok then e
      else if n - 1 >= |g.parts| then Emitted(e.fields, false)
      else
        var c := Emit(g.parts[n - 1]);
        Emitted(e.fields + c.fields, c.ok)
  }

  /** After parts 0 .. i-1 were written without a throw, part i follows. */
  lemma EmitPartsStep(g: Geom, i: nat)
    requires g.IsCollection() && i < |g.parts| && EmitParts(g, i).ok
    ensures EmitParts(g, i + 1).fields == EmitParts(g, i).fields + Emit(g.parts[i]).fields
    ensures EmitParts(g, i + 1).ok == Emit(g.parts[i]).ok
  {
  }

  /** A part index past the end throws and writes nothing more. */
  lemma EmitPartsPastEnd(g: Geom, i: nat)
    requires g.IsCollection() && i >= |g.parts| && EmitParts(g, i).ok
    ensures EmitParts(g, i + 1) == Emitted(EmitParts(g, i).fields, false)
  {
  }

  lemma {:induction false} EmitPartsStops(g: Geom, i: nat, n: nat)
    requires g.IsCollection() && i <= n
    requires !EmitParts(g, i).ok
    ensures EmitParts(g, n) == EmitParts(g, i)
    decreases n - i
  {
    if i < n {
      EmitPartsStops(g, i, n - 1);
    }
  }

  /** The stream a written geometry goes to (java.sql.SQLOutput). */
  class SqlOutput {
    var fields: seq<Field>

    constructor ()
      ensures fields == []
    {
      fields := [];
    }

    method WriteByte(b: bv8)
      modifies this
      ensures fields == old(fields) + [Byte(b)]
    {
      fields := fields + [Byte(b)];
    }

    method WriteInt(i: int)
      modifies this
      ensures fields == old(fields) + [Int(i)]
    {
      fields := fields + [Int(i)];
    }

    method WriteDouble(d: real)
      modifies this
      ensures fields == old(fields) + [Double(d)]
    {
      fields := fields + [Double(d)];
    }
  }

  /** writeBinary: writeGeometry on a possibly null geometry. A dimension
      outside 2..4 throws before anything is written. */
  method WriteBinary(g: Option<Geom>, dest: SqlOutput) returns (ok: bool)
    modifies dest
    ensures g.None? ==> !ok && dest.fields == old(dest.fields)
    ensures g.Some? ==> dest.fields == old(dest.fields) + Emit(g.value).fields && ok == Emit(g.value).ok
  {
    var dimension := CoordDim(g);
    if dimension < 2 || dimension > 4 {
      return false;
    }
    ok := WriteGeometry(g.value, dest);
  }

  method WriteGeometry(g: Geom, dest: SqlOutput) returns (ok: bool)
    modifies dest
    decreases g, 2
    ensures dest.fields == old(dest.fields) + Emit(g).fields
    ensures ok == Emit(g).ok
  {
    var plaintype := WkbType(g);
    if plaintype.None? {
      return false;
    }
    var t := plaintype.value;
    ghost var start := dest.fields;
    var typeword := TypeWord(t, CoordDim(Some(g)), CheckSrid(g));
    dest.WriteByte(typeword);
    if CheckSrid(g) {
      dest.WriteInt(g.srid);
    }
    assert dest.fields == start + Header(g, t);
    ok := WriteBody(g, dest);
    EmitIs(g);
  }

  lemma EmitIs(g: Geom)
    requires !g.OtherGeometry?
    ensures Emit(g).fields == Header(g, WkbType(g).value) + Body(g).fields
    ensures Emit(g).ok == Body(g).ok
  {
  }

  /** The switch on the type code in writeGeometry. */
  method WriteBody(g: Geom, dest: SqlOutput) returns (ok: bool)
    requires !g.OtherGeometry?
    modifies dest
    decreases g, 1
    ensures dest.fields == old(dest.fields) + Body(g).fields
    ensures ok == Body(g).ok
  {
    ok := true;
    match g {
      case Point(_, c) =>
        if c.Some? {
          WriteCoordinates([c.value], dest);
        }
      case LineString(_, cs) =>
        WriteLineString(cs, dest);
      case LinearRing(_, cs) =>
        WriteLineString(cs, dest);
      case Polygon(_, shell, holes) =>
        WritePolygon(shell, holes, dest);
      case MultiPoint(_, _) =>
        dest.WriteInt(NumPoints(g));
        ok := WriteParts(g, NumPoints(g), dest);
      case MultiLineString(_, parts) =>
        dest.WriteInt(|parts|);
        ok := WriteParts(g, |parts|, dest);
      case MultiPolygon(_, parts) =>
        dest.WriteInt(|parts|);
        ok := WriteParts(g, |parts|, dest);
      case GeometryCollection(_, parts) =>
        dest.WriteInt(|parts|);
        ok := WriteParts(g, |parts|, dest);
    }
  }

  method WriteCoordinates(cs: seq<Coord>, dest: SqlOutput)
    modifies dest
    ensures dest.fields == old(dest.fields) + CoordFields(cs)
  {
    var i := 0;
    while i < |cs|
      invariant 0 <= i <= |cs|
      invariant dest.fields == old(dest.fields) + CoordFields(cs[..i])
    {
      assert cs[..i + 1][..i] == cs[..i];
      dest.WriteDouble(cs[i].x);
      dest.WriteDouble(cs[i].y);
      i := i + 1;
    }
    assert cs[..i] == cs;
  }

  method WriteLineString(cs: seq<Coord>, dest: SqlOutput)
    modifies dest
    ensures dest.fields == old(dest.fields) + LineFields(cs)
  {
    dest.WriteInt(|cs|);
    WriteCoordinates(cs, dest);
  }

  method WritePolygon(shell: seq<Coord>, holes: seq<seq<Coord>>, dest: SqlOutput)
    modifies dest
    ensures dest.fields == old(dest.fields) + [Int(|holes| + 1)] + LineFields(shell) + RingsFields(holes)
  {
    dest.WriteInt(|holes| + 1);
    WriteLineString(shell, dest);
    var i := 0;
    while i < |holes|
      invariant 0 <= i <= |holes|
      invariant dest.fields == old(dest.fields) + [Int(|holes| + 1)] + LineFields(shell) + RingsFields(holes[..i])
    {
      assert holes[..i + 1][..i] == holes[..i];
      WriteLineString(holes[i], dest);
      i := i + 1;
    }
    assert holes[..i] == holes;
  }

  /** writeMultiPoint and writeGeometryArray: parts 0 .. n-1, each a full
      geometry with its own type byte. */
  method WriteParts(g: Geom, n: nat, dest: SqlOutput) returns (ok: bool)
    requires g.IsCollection()
    modifies dest
    decreases g, 0
    ensures dest.fields == old(dest.fields) + EmitParts(g, n).fields
    ensures ok == EmitParts(g, n).ok
  {
    var i := 0;
    while i < n
      invariant 0 <= i <= n
      invariant EmitParts(g, i).ok
      invariant dest.fields == old(dest.fields) + EmitParts(g, i).fields
    {
      if i >= |g.parts| {
        EmitPartsPastEnd(g, i);
        EmitPartsStops(g, i + 1, n);
        return false;
      }
      ghost var before := dest.fields;
      var c := WriteGeometry(g.parts[i], dest);
      EmitPartsStep(g, i);
      assert dest.fields == before + Emit(g.parts[i]).fields;
      assert dest.fields == old(dest.fields) + EmitParts(g, i + 1).fields;
      if !c {
        EmitPartsStops(g, i + 1, n);
        return false;
      }
      i := i + 1;
    }
    return true;
  }

  // ---------------------------------------------------------------------
  // The estimator

  /** estimatePoint: 8 bytes per ordinate, getCoordDim = 2 ordinates. */
  function EstimatePoint(): nat {
    8 * CoordDim(Some(Point(0, None)))
  }

  /** estimateLineString through estimatePointArray: 4 bytes of count, then
      the size of the start point for each point. */
  function EstimateLine(cs: seq<Coord>): nat {
    4 + (if |cs| > 0 then |cs| * EstimatePoint() else 0)
  }

  function EstimateRings(rings: seq<seq<Coord>>): nat {
    if rings == [] then 0 else EstimateRings(rings[..|rings| - 1]) + EstimateLine(rings[|rings| - 1])
  }

  /** estimateBytes. None is the IllegalArgumentException from getWKBType. */
  function Estimate(g: Geom): Option<nat>
    decreases g, 2
  {
    match g
    case OtherGeometry(_) => None
    case _ =>
      var body := EstimateBody(g);
      if body.None? then None else Some(1 + (if CheckSrid(g) then 4 else 0) + body.value)
  }

  /** The switch on the type code in estimateBytes. */
  function EstimateBody(g: Geom): Option<nat>
    requires !g.OtherGeometry?
    decreases g, 1
  {
    match g
    case Point(_, _) => Some(EstimatePoint())
    case LineString(_, cs) => Some(EstimateLine(cs))
    case LinearRing(_, cs) => Some(EstimateLine(cs))
    case Polygon(_, shell, holes) => Some(4 + EstimateLine(shell) + EstimateRings(holes))
    case MultiPoint(_, parts) =>
      // the part count times the size of the first part
      if |parts| == 0 then Some(4)
      else
        var first := Estimate(parts[0]);
        if first.None? then None else Some(4 + |parts| * first.value)
    case MultiLineString(_, parts) =>
      var arr := EstimateParts(g, |parts|);
      if arr.None? then None else Some(4 + arr.value)
    case MultiPolygon(_, parts) =>
      var arr := EstimateParts(g, |parts|);
      if arr.None? then None else Some(4 + arr.value)
    case GeometryCollection(_, parts) =>
      var arr := EstimateParts(g, |parts|);
      if arr.None? then None else Some(4 + arr.value)
  }

  /** estimateGeometryArray over parts 0 .. n-1. */
  function EstimateParts(g: Geom, n: nat): Option<nat>
    requires g.IsCollection() && n <= |g.parts|
    decreases g, 0, n
  {
    if n == 0 then Some(0)
    else
      var a := EstimateParts(g, n - 1);
      var b := Estimate(g.parts[n - 1]);
      if a.None? || b.None? then None else Some(a.value + b.value)
  }

  /** Every estimate covers the type byte, the SRID when one is written,
      and at least a 4-byte count (a point's 16 coordinate bytes exceed
      it); an unknown class has none. */
  lemma EstimateCoversHeader(g: Geom)
    ensures g.OtherGeometry? ==> Estimate(g).None?
    ensures Estimate(g).Some? ==> Estimate(g).value >= 1 + (if CheckSrid(g) then 4 else 0) + 4
  {
  }

  /** The geometries for which the estimator's shortcuts are exact: no empty
      point, no unknown class, and in a MultiPoint every part a non-empty
      point that writes an SRID exactly when the first part does. */
  predicate EstimateExact(g: Geom)
    decreases g, 1
  {
    match g
    case Point(_, c) => c.Some?
    case OtherGeometry(_) => false
    case LineString(_, _) => true
    case LinearRing(_, _) => true
    case Polygon(_, _, _) => true
    case MultiPoint(_, parts) =>
      forall i :: 0 <= i < |parts| ==> PointLike(parts[i], parts[0])
    case MultiLineString(_, parts) => PartsExact(g, |parts|)
    case MultiPolygon(_, parts) => PartsExact(g, |parts|)
    case GeometryCollection(_, parts) => PartsExact(g, |parts|)
  }

  /** p is a non-empty point that writes an SRID exactly when q does. */
  predicate PointLike(p: Geom, q: Geom) {
    p.Point? && p.coord.Some? && (CheckSrid(p) <==> CheckSrid(q))
  }

  predicate PartsExact(g: Geom, n: nat)
    requires g.IsCollection() && n <= |g.parts|
    decreases g, 0, n
  {
    n == 0 || (PartsExact(g, n - 1) && EstimateExact(g.parts[n - 1]))
  }

  lemma ByteCountSingle(f: Field)
    ensures ByteCount([f]) == FieldSize(f)
  {
    assert [f][..0] == [];
  }

  lemma {:induction false} CoordFieldsBytes(cs: seq<Coord>)
    ensures ByteCount(CoordFields(cs)) == 16 * |cs|
  {
    if cs != [] {
      var c := cs[|cs| - 1];
      var pre := CoordFields(cs[..|cs| - 1]);
      CoordFieldsBytes(cs[..|cs| - 1]);
      assert pre + [Double(c.x), Double(c.y)] == pre + [Double(c.x)] + [Double(c.y)];
      ByteCountAppend(pre + [Double(c.x)], [Double(c.y)]);
      ByteCountAppend(pre, [Double(c.x)]);
      ByteCountSingle(Double(c.x));
      ByteCountSingle(Double(c.y));
    }
  }

  lemma LineFieldsBytes(cs: seq<Coord>)
    ensures ByteCount(LineFields(cs)) == EstimateLine(cs)
  {
    ByteCountAppend([Int(|cs|)], CoordFields(cs));
    ByteCountSingle(Int(|cs|));
    CoordFieldsBytes(cs);
  }

  lemma {:induction false} RingsFieldsBytes(rings: seq<seq<Coord>>)
    ensures ByteCount(RingsFields(rings)) == EstimateRings(rings)
  {
    if rings != [] {
      RingsFieldsBytes(rings[..|rings| - 1]);
      ByteCountAppend(RingsFields(rings[..|rings| - 1]), LineFields(rings[|rings| - 1]));
      LineFieldsBytes(rings[|rings| - 1]);
    }
  }

  lemma HeaderBytes(g: Geom, t: bv8)
    requires t < 0x10
    ensures ByteCount(Header(g, t)) == 1 + (if CheckSrid(g) then 4 else 0)
  {
    var b := [Byte(TypeWord(t, CoordDim(Some(g)), CheckSrid(g)))];
    ByteCountSingle(b[0]);
    if CheckSrid(g) {
      ByteCountAppend(b, [Int(g.srid)]);
      ByteCountSingle(Int(g.srid));
    } else {
      assert Header(g, t) == b;
    }
  }

  /** A count field followed by a body. */
  lemma CountedBytes(n: int, rest: seq<Field>)
    ensures ByteCount([Int(n)] + rest) == 4 + ByteCount(rest)
  {
    ByteCountAppend([Int(n)], rest);
    ByteCountSingle(Int(n));
  }

  /** The size law: on the geometries where the estimator's shortcuts hold,
      estimateBytes is exactly the number of bytes writeGeometry emits. */
  lemma {:induction false} EstimateIsExact(g: Geom)
    requires EstimateExact(g)
    ensures Emit(g).ok
    ensures Estimate(g) == Some(ByteCount(Emit(g).fields))
    decreases g, 2
  {
    BodyIsExact(g);
    var t := WkbType(g).value;
    HeaderBytes(g, t);
    EmitIs(g);
    EstimateIs(g);
    ByteCountAppend(Header(g, t), Body(g).fields);
  }

  lemma EstimateIs(g: Geom)
    requires !g.OtherGeometry? && EstimateBody(g).Some?
    ensures Estimate(g) == Some(1 + (if CheckSrid(g) then 4 else 0) + EstimateBody(g).value)
  {
  }

  lemma {:induction false} BodyIsExact(g: Geom)
    requires EstimateExact(g)
    ensures !g.OtherGeometry? && Body(g).ok
    ensures EstimateBody(g) == Some(ByteCount(Body(g).fields))
    decreases g, 1
  {
    match g
    case Point(_, c) =>
      CoordFieldsBytes([c.value]);
    case LineString(_, cs) =>
      LineFieldsBytes(cs);
    case LinearRing(_, cs) =>
      LineFieldsBytes(cs);
    case Polygon(_, shell, holes) =>
      PolygonBytes(shell, holes);
    case MultiPoint(_, parts) =>
      MultiPointBodyExact(g);
    case MultiLineString(_, parts) =>
      ArrayBodyExact(g);
    case MultiPolygon(_, parts) =>
      ArrayBodyExact(g);
    case GeometryCollection(_, parts) =>
      ArrayBodyExact(g);
  }

  /** The MultiPoint case of BodyIsExact. */
  lemma MultiPointBodyExact(g: Geom)
    requires g.MultiPoint? && EstimateExact(g)
    ensures Body(g).ok && EstimateBody(g) == Some(ByteCount(Body(g).fields))
  {
    MultiPointCount(g, |g.parts|);
    CountedBytes(NumPoints(g), EmitParts(g, |g.parts|).fields);
    if |g.parts| > 0 {
      MultiPointParts(g, |g.parts|);
    }
  }

  /** The geometry-array cases of BodyIsExact. */
  lemma {:induction false} ArrayBodyExact(g: Geom)
    requires (g.MultiLineString? || g.MultiPolygon? || g.GeometryCollection?) && EstimateExact(g)
    ensures Body(g).ok && EstimateBody(g) == Some(ByteCount(Body(g).fields))
    decreases g, 0, |g.parts| + 1
  {
    ArrayExact(g, |g.parts|);
    CountedBytes(|g.parts|, EmitParts(g, |g.parts|).fields);
  }

  lemma PolygonBytes(shell: seq<Coord>, holes: seq<seq<Coord>>)
    ensures ByteCount([Int(|holes| + 1)] + LineFields(shell) + RingsFields(holes))
      == 4 + EstimateLine(shell) + EstimateRings(holes)
  {
    LineFieldsBytes(shell);
    RingsFieldsBytes(holes);
    ByteCountAppend(LineFields(shell), RingsFields(holes));
    assert [Int(|holes| + 1)] + LineFields(shell) + RingsFields(holes)
        == [Int(|holes| + 1)] + (LineFields(shell) + RingsFields(holes));
    CountedBytes(|holes| + 1, LineFields(shell) + RingsFields(holes));
  }

  lemma {:induction false} ArrayExact(g: Geom, n: nat)
    requires g.IsCollection() && n <= |g.parts| && PartsExact(g, n)
    ensures EmitParts(g, n).ok
    ensures EstimateParts(g, n) == Some(ByteCount(EmitParts(g, n).fields))
    decreases g, 0, n
  {
    if n > 0 {
      assert PartsExact(g, n - 1) && EstimateExact(g.parts[n - 1]);
      ArrayExact(g, n - 1);
      EstimateIsExact(g.parts[n - 1]);
      ArrayExactStep(g, n - 1);
    }
  }

  /** One more exact part keeps the sum of the estimates exact. */
  lemma ArrayExactStep(g: Geom, i: nat)
    requires g.IsCollection() && i < |g.parts|
    requires EmitParts(g, i).ok && EstimateParts(g, i) == Some(ByteCount(EmitParts(g, i).fields))
    requires Emit(g.parts[i]).ok && Estimate(g.parts[i]) == Some(ByteCount(Emit(g.parts[i]).fields))
    ensures EmitParts(g, i + 1).ok
    ensures EstimateParts(g, i + 1) == Some(ByteCount(EmitParts(g, i + 1).fields))
  {
    EmitPartsBytesStep(g, i);
    EstimatePartsStep(g, i);
  }

  /** Writing part i adds its bytes to those of the parts before it. */
  lemma EmitPartsBytesStep(g: Geom, i: nat)
    requires g.IsCollection() && i < |g.parts| && EmitParts(g, i).ok
    ensures EmitParts(g, i + 1).ok == Emit(g.parts[i]).ok
    ensures ByteCount(EmitParts(g, i + 1).fields) == ByteCount(EmitParts(g, i).fields) + ByteCount(Emit(g.parts[i]).fields)
  {
    EmitPartsStep(g, i);
    ByteCountAppend(EmitParts(g, i).fields, Emit(g.parts[i]).fields);
  }

  /** The estimate of parts 0 .. i adds that of part i to the rest. */
  lemma EstimatePartsStep(g: Geom, i: nat)
    requires g.IsCollection() && i < |g.parts|
    requires EstimateParts(g, i).Some? && Estimate(g.parts[i]).Some?
    ensures EstimateParts(g, i + 1) == Some(EstimateParts(g, i).value + Estimate(g.parts[i]).value)
  {
  }

  /** In a MultiPoint of non-empty points, getNumPoints is the part count. */
  lemma {:induction false} MultiPointCount(g: Geom, n: nat)
    requires g.MultiPoint? && n <= |g.parts| && EstimateExact(g)
    ensures PartPoints(g, n) == n
  {
    if n > 0 {
      MultiPointCount(g, n - 1);
      assert PointLike(g.parts[n - 1], g.parts[0]);
    }
  }

  /** A non-empty point writes as many bytes as the estimate of any point
      with the same SRID presence. */
  lemma PointBytes(p: Geom, q: Geom)
    requires PointLike(p, q) && q.Point?
    ensures Emit(p).ok && Estimate(q) == Some(ByteCount(Emit(p).fields))
  {
    var t := WkbType(p).value;
    HeaderBytes(p, t);
    CoordFieldsBytes([p.coord.value]);
    EmitIs(p);
    ByteCountAppend(Header(p, t), Body(p).fields);
  }

  lemma {:induction false} MultiPointParts(g: Geom, n: nat)
    requires g.MultiPoint? && 0 < n <= |g.parts| && EstimateExact(g)
    ensures EmitParts(g, n).ok && Estimate(g.parts[0]).Some?
    ensures ByteCount(EmitParts(g, n).fields) == n * Estimate(g.parts[0]).value
  {
    var p := g.parts[n - 1];
    assert PointLike(p, g.parts[0]) && PointLike(g.parts[0], g.parts[0]);
    PointBytes(p, g.parts[0]);
    if n == 1 {
      EmitPartsStep(g, 0);
      assert EmitParts(g, 1).fields == [] + Emit(p).fields == Emit(p).fields;
    } else {
      MultiPointParts(g, n - 1);
      EmitPartsStep(g, n - 1);
      ByteCountAppend(EmitParts(g, n - 1).fields, Emit(p).fields);
    }
  }

  /** The estimate counts 16 bytes for an empty point, which writes no
      coordinates at all. */
  lemma EmptyPointOverestimate(srid: int)
    ensures Estimate(Point(srid, None)) == Some(ByteCount(Emit(Point(srid, None)).fields) + 16)
  {
    var g := Point(srid, None);
    HeaderBytes(g, POINT);
    assert Emit(g).fields == Header(g, POINT) + [];
  }

  /** Because getCoordDim is 2 for every geometry that is written, the Z and
      M bits of a written type byte are always clear. The SRID bit is set
      exactly when the SRID follows. */
  lemma NoZmBits(g: Geom)
    requires !g.OtherGeometry?
    ensures Emit(g).fields[0].Byte?
    ensures Emit(g).fields[0].b & 0x30 == 0
    ensures (Emit(g).fields[0].b & 0x40 != 0) <==> CheckSrid(g)
    ensures CheckSrid(g) ==> Emit(g).fields[1] == Int(g.srid)
  {
    var t := WkbType(g).value;
    var w := TypeWord(t, 2, CheckSrid(g));
    assert Emit(g).fields[0] == Byte(w);
    assert w & 0x30 == (w & 0x20) | (w & 0x10);
  }

  /** writeMultiPoint writes getNumPoints(), not the number of parts. An
      empty first point makes it write one part of two, and the second point
      is lost. */
  lemma MultiPointWithEmptyPart(c: Coord)
    ensures Emit(MultiPoint(0, [Point(0, None), Point(0, Some(c))])).fields
      == [Byte(MULTIPOINT), Int(1), Byte(POINT)]
  {
    var g := MultiPoint(0, [Point(0, None), Point(0, Some(c))]);
    assert PartPoints(g, 0) == 0;
    assert PartPoints(g, 1) == 0;
    assert PartPoints(g, 2) == 1;
    assert Emit(g.parts[0]).fields == [Byte(POINT)];
    assert EmitParts(g, 1).fields == [] + [Byte(POINT)];
  }
}
