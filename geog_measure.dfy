/** The geography measurement entry points around the spheroid code: the
    choice of a working projection (geography_bestsrid), the index-box
    expansion of geography_expand, and the empty-input and error guards of
    geography_area, geography_distance and geography_dwithin. */
module GeogMeasure {
  import opened Wrappers
  import Gidx

  /** The messages the error paths raise. */
  const BESTSRID_GBOX1 := "Error in geography_bestsrid calling lwgeom_calculate_gbox(lwgeom1, &gbox1)"
  const BESTSRID_GBOX2 := "Error in geography_bestsrid calling lwgeom_calculate_gbox(lwgeom2, &gbox2)"
  const MISMATCHED_DIMS := "gidx_insert_into_gserialized tried to insert mismatched dimensionality box into geography"
  const GBOX_FAILED := "Error in gbox_from_gserialized calculation."
  const NEGATIVE_AREA := "lwgeom_area_spher(oid) returned area < 0.0"
  const NEGATIVE_DISTANCE := "lwgeom_distance_spheroid returned negative!"

  // ---------------------------------------------------------------------
  // geography_bestsrid

  /** The planar box lwgeom_calculate_gbox computes. */
  datatype GBox = GBox(xmin: real, xmax: real, ymin: real, ymax: real)

  /** One argument: whether it is empty, and its box (None when
      lwgeom_calculate_gbox fails). */
  datatype Arg = Arg(empty: bool, box: Option<GBox>)

  const LAEA_NORTH := -3574
  const LAEA_SOUTH := -3409
  const MERCATOR := -3395

  function Abs(x: real): real { if x < 0.0 then -x else x }
  /** FP_MAX and FP_MIN. */
  function FpMax(a: real, b: real): real { if a > b then a else b }
  function FpMin(a: real, b: real): real { if a < b then a else b }

  /** The UTM zone picked from the average of the four x bounds. */
  function Zone(b1: GBox, b2: GBox): int {
    var dzone := (b1.xmin + b1.xmax + b2.xmin + b2.xmax) / 4.0;
    (1.0 + ((dzone + 180.0) / 6.0)).Floor
  }

  /** The tests of geography_bestsrid on the two boxes once empties are
      filled in: arctic, antarctic, one UTM zone, else Mercator. Both polar
      tests look at ymin. The answer is a polar Lambert code, Mercator, or
      a UTM South or North code for the zone of the average x. */
  function Choose(b1: GBox, b2: GBox): (r: int)
    ensures b1.ymin > 65.0 && b2.ymin > 65.0 ==> r == LAEA_NORTH
    ensures r == LAEA_NORTH || r == LAEA_SOUTH || r == MERCATOR
      || r == -32700 - Zone(b1, b2) || r == -32600 - Zone(b1, b2)
    ensures Abs(FpMax(b1.xmax, b2.xmax) - FpMin(b1.xmin, b2.xmin)) >= 6.0 ==> r in {LAEA_NORTH, LAEA_SOUTH, MERCATOR}
  {
    if b1.ymin > 65.0 && b2.ymin > 65.0 then LAEA_NORTH
    else if b1.ymin < -65.0 && b2.ymin < -65.0 then LAEA_SOUTH
    else if Abs(FpMax(b1.xmax, b2.xmax) - FpMin(b1.xmin, b2.xmin)) < 6.0 then
      (if b1.ymax < 0.0 && b2.ymax < 0.0 then -32700 - Zone(b1, b2) else -32600 - Zone(b1, b2))
    else MERCATOR
  }

  /** Once empties are settled: NULL when both are empty, otherwise an empty
      side takes the other side's box. */
  function Pick(empty1: bool, empty2: bool, box1: GBox, box2: GBox): Option<int> {
    if empty1 && empty2 then None
    else
      var b1 := if empty1 then box2 else box1;
      var b2 := if empty2 then b1 else box2;
      Some(Choose(b1, b2))
  }

  /** geography_bestsrid as written. `same` says both arguments are the same
      datum (the one-argument form); `junk` is what an uninitialised GBOX
      holds. When the datums are the same, the second box is a copy of the
      first but the second emptiness flag keeps its initial FALSE, so the
      one-argument form never answers NULL. */
  function BestSridAsWritten(a: Arg, b: Arg, same: bool, junk: GBox): (r: Result<Option<int>>)
    ensures r.Err? <==> (!a.empty && a.box.None?) || (!same && !b.empty && b.box.None?)
    ensures same && r.Ok? ==> r.value.Some?
    ensures !same && r.Ok? ==> (r.value.None? <==> a.empty && b.empty)
  {
    if !a.empty && a.box.None? then Err(BESTSRID_GBOX1)
    else
      var box1 := if a.empty then junk else a.box.value;
      if same then Ok(Pick(a.empty, false, box1, box1))
      else if !b.empty && b.box.None? then Err(BESTSRID_GBOX2)
      else Ok(Pick(a.empty, b.empty, box1, if b.empty then junk else b.box.value))
  }

  /** As written, the one-argument form on an empty geography does not give
      NULL: it picks a projection from the uninitialised box. With that
      memory zeroed the answer is UTM North zone 31. */
  lemma BestSridEmptySameAsWritten(a: Arg, junk: GBox)
    requires a.empty
    ensures BestSridAsWritten(a, a, true, junk).Ok?
    ensures BestSridAsWritten(a, a, true, junk).value == Some(Choose(junk, junk))
    ensures BestSridAsWritten(a, a, true, GBox(0.0, 0.0, 0.0, 0.0)) == Ok(Some(-32631))
    ensures BestSrid(a, a, true) == Ok(None)
  {
    assert Zone(GBox(0.0, 0.0, 0.0, 0.0), GBox(0.0, 0.0, 0.0, 0.0)) == 31;
  }

  /** geography_bestsrid with the second emptiness flag copied along with
      the box when both arguments are the same datum. */
  function BestSrid(a: Arg, b: Arg, same: bool): (r: Result<Option<int>>)
    ensures r.Err? <==> (!a.empty && a.box.None?) || (!same && !b.empty && b.box.None?)
  {
    if !a.empty && a.box.None? then Err(BESTSRID_GBOX1)
    else if same then
      Ok(if a.empty then None else Some(Choose(a.box.value, a.box.value)))
    else if !b.empty && b.box.None? then Err(BESTSRID_GBOX2)
    else if a.empty && b.empty then Ok(None)
    else if a.empty then Ok(Some(Choose(b.box.value, b.box.value)))
    else if b.empty then Ok(Some(Choose(a.box.value, a.box.value)))
    else Ok(Some(Choose(a.box.value, b.box.value)))
  }

  /** The corrected function agrees with the code whenever the datums differ
      or the single argument is non-empty. */
  lemma BestSridAgrees(a: Arg, b: Arg, same: bool, junk: GBox)
    requires !same || !a.empty
    ensures same ==> BestSrid(a, b, same) == BestSridAsWritten(a, b, same, junk)
    ensures !same && BestSrid(a, b, same).Ok? ==> BestSridAsWritten(a, b, same, junk) == BestSrid(a, b, same)
  {
  }

  /** NULL exactly when every argument is empty; the one-argument form is
      the two-argument form on two copies. */
  lemma BestSridNull(a: Arg, b: Arg, same: bool)
    requires BestSrid(a, b, same).Ok?
    ensures BestSrid(a, b, same).value.None? <==> a.empty && (same || b.empty)
    ensures same ==> BestSrid(a, a, true) == BestSrid(a, a, false)
  {
  }

  /** With distinct arguments the answer does not depend on their order. */
  lemma BestSridSymmetric(a: Arg, b: Arg)
    requires BestSrid(a, b, false).Ok? && BestSrid(b, a, false).Ok?
    ensures BestSrid(a, b, false) == BestSrid(b, a, false)
  {
    if !a.empty && !b.empty {
      ChooseSymmetric(a.box.value, b.box.value);
    }
  }

  lemma ChooseSymmetric(b1: GBox, b2: GBox)
    ensures Choose(b1, b2) == Choose(b2, b1)
  {
    assert FpMax(b1.xmax, b2.xmax) == FpMax(b2.xmax, b1.xmax);
    assert FpMin(b1.xmin, b2.xmin) == FpMin(b2.xmin, b1.xmin);
    assert Zone(b1, b2) == Zone(b2, b1) by {
      assert b1.xmin + b1.xmax + b2.xmin + b2.xmax == b2.xmin + b2.xmax + b1.xmin + b1.xmax;
    }
  }

  /** On longitudes in [-180, 180] the zone is 1 to 61, and each kind of
      answer comes from exactly one case: Lambert north when both boxes
      start above 65 degrees, Lambert south when both start below -65, a
      UTM South code -32701..-32761 or UTM North code -32601..-32661 when
      the x extent is under 6 degrees, else Mercator. Every answer is
      negative. */
  lemma ChooseOnLongitudes(b1: GBox, b2: GBox)
    requires -180.0 <= b1.xmin <= 180.0 && -180.0 <= b1.xmax <= 180.0
    requires -180.0 <= b2.xmin <= 180.0 && -180.0 <= b2.xmax <= 180.0
    ensures 1 <= Zone(b1, b2) <= 61
    ensures var s := Choose(b1, b2);
      var north := b1.ymin > 65.0 && b2.ymin > 65.0;
      var south := !north && b1.ymin < -65.0 && b2.ymin < -65.0;
      var utm := !north && !south && Abs(FpMax(b1.xmax, b2.xmax) - FpMin(b1.xmin, b2.xmin)) < 6.0;
      && (s == LAEA_NORTH <==> north)
      && (s == LAEA_SOUTH <==> south)
      && (-32761 <= s <= -32701 <==> utm && b1.ymax < 0.0 && b2.ymax < 0.0)
      && (-32661 <= s <= -32601 <==> utm && !(b1.ymax < 0.0 && b2.ymax < 0.0))
      && (s == MERCATOR <==> !north && !south && !utm)
      && s < 0
  {
    var dzone := (b1.xmin + b1.xmax + b2.xmin + b2.xmax) / 4.0;
    assert -180.0 <= dzone <= 180.0;
    var t := 1.0 + ((dzone + 180.0) / 6.0);
    assert 1.0 <= t <= 61.0;
  }

  // ---------------------------------------------------------------------
  // geography_expand

  /** Every min lowered and every max raised by d. */
  function Grown(b: Gidx.Box, d: real): (r: Gidx.Box)
    ensures |r| == |b|
  {
    seq(|b|, k requires 0 <= k < |b| => if k % 2 == 0 then b[k] - d else b[k] + d)
  }

  /** For d >= 0 the grown box contains the original; growing by -d undoes
      growing by d; a valid box stays valid. */
  lemma GrownProperties(b: Gidx.Box, d: real)
    ensures Gidx.NDims(Grown(b, d)) == Gidx.NDims(b)
    ensures forall i :: 0 <= i < Gidx.NDims(b) ==>
      Gidx.Lo(Grown(b, d), i) == Gidx.Lo(b, i) - d && Gidx.Hi(Grown(b, d), i) == Gidx.Hi(b, i) + d
    ensures d >= 0.0 ==> Gidx.Contain(Grown(b, d), b)
    ensures d >= 0.0 && Gidx.Valid(b) ==> Gidx.Valid(Grown(b, d))
    ensures Grown(Grown(b, d), -d) == b
  {
    var g := Grown(b, d);
    forall i | 0 <= i < Gidx.NDims(b)
      ensures Gidx.Lo(g, i) == Gidx.Lo(b, i) - d && Gidx.Hi(g, i) == Gidx.Hi(b, i) + d
    {
      assert (2 * i) % 2 == 0 && (2 * i + 1) % 2 == 1;
    }
  }

  /** The loop of geography_expand over the three dimensions of a box. */
  method GrowInPlace(box: array<real>, d: real)
    requires box.Length == 6
    modifies box
    ensures box[..] == Grown(old(box[..]), d)
  {
    ghost var b0: Gidx.Box := box[..];
    for i := 0 to 3
      invariant forall k :: 0 <= k < 2 * i ==> box[k] == Grown(b0, d)[k]
      invariant forall k :: 2 * i <= k < 6 ==> box[k] == b0[k]
    {
      assert (2 * i) % 2 == 0 && (2 * i + 1) % 2 == 1;
      box[2 * i] := box[2 * i] - d;
      box[2 * i + 1] := box[2 * i + 1] + d;
    }
  }

  /** geography_expand: an empty input (geography_gidx fails, `gidx` is
      None) is returned unchanged. Otherwise the three dimensions of its box
      are grown, in place, by the distance over the earth's radius, and the
      box is written into the serialized form; a dimension mismatch is an
      error. */
  method Expand(g: Gidx.Gser, gidx: Option<Gidx.Box>, distance: real, radius: real, enc: real -> seq<bv8>)
    returns (r: Result<Gidx.Gser>)
    requires radius > 0.0 && forall x :: |enc(x)| == 4
    requires g.flags & Gidx.FLAG_BBOX != 0 ==> |g.data| >= 8 * Gidx.GserDims(g.flags)
    requires gidx.Some? ==> Gidx.NDims(gidx.value) == 3
    ensures gidx.None? ==> r == Ok(g)
    ensures gidx.Some? ==> (r.Err? <==> Gidx.GserDims(g.flags) != 3)
    ensures gidx.Some? && r.Ok? ==>
      Gidx.InsertIntoGser(g, Grown(gidx.value, distance / radius), enc) == Some(r.value)
  {
    if gidx.None? {
      return Ok(g);
    }
    var fdistance := distance / radius;
    var box := new real[6](k requires 0 <= k < 6 => gidx.value[k]);
    assert box[..] == gidx.value;
    GrowInPlace(box, fdistance);
    var out := Gidx.InsertIntoGser(g, box[..], enc);
    if out.None? {
      return Err(MISMATCHED_DIMS);
    }
    r := Ok(out.value);
  }

  // ---------------------------------------------------------------------
  // geography_area, geography_distance, geography_dwithin

  /** The geocentric box of a geography: z bounds on the unit sphere. */
  datatype ZBox = ZBox(zmin: real, zmax: real)

  /** The spheroid code cannot circle a pole or cross the equator: a box
      reaching z = 1 or z = -1, or with z of both signs, uses the sphere. */
  function UseSpheroid(requested: bool, box: ZBox): (r: bool)
    ensures r <==> requested && box.zmax < 1.0 && box.zmin > -1.0 && !(box.zmax > 0.0 && box.zmin < 0.0)
  {
    var s := requested && !(box.zmax >= 1.0 || box.zmin <= -1.0);
    s && !(box.zmax > 0.0 && box.zmin < 0.0)
  }

  /** geography_area: 0 for an empty input; an error when the box cannot be
      computed or the area routine returns a negative value; otherwise the
      spheroid area when UseSpheroid allows it, else the sphere area. */
  function Area(empty: bool, box: Option<ZBox>, useSpheroid: bool, spheroidArea: real, sphereArea: real): (r: Result<real>)
    ensures empty ==> r == Ok(0.0)
    ensures !empty && box.None? ==> r.Err?
    ensures r.Ok? ==> r.value >= 0.0
    ensures !empty && box.Some? ==>
      var a := if UseSpheroid(useSpheroid, box.value) then spheroidArea else sphereArea;
      (r.Ok? <==> a >= 0.0) && (r.Ok? ==> r.value == a)
  {
    if empty then Ok(0.0)
    else if box.None? then Err(GBOX_FAILED)
    else
      var a := if UseSpheroid(useSpheroid, box.value) then spheroidArea else sphereArea;
      if a < 0.0 then Err(NEGATIVE_AREA) else Ok(a)
  }

  /** geography_distance: NULL when either input is empty, a box cannot be
      computed, or the distance routine signals failure with a negative
      value. */
  function Distance(empty1: bool, empty2: bool, boxesOk: bool, dist: real): (r: Option<real>)
    ensures r.Some? <==> !empty1 && !empty2 && boxesOk && dist >= 0.0
    ensures r.Some? ==> r.value == dist
  {
    if empty1 || empty2 then None
    else if !boxesOk then None
    else if dist < 0.0 then None
    else Some(dist)
  }

  /** geography_dwithin: FALSE when either input is empty or a box cannot be
      computed; a negative distance is an error; otherwise distance <
      tolerance. */
  function DWithin(empty1: bool, empty2: bool, boxesOk: bool, dist: real, tolerance: real): (r: Result<bool>)
    ensures (empty1 || empty2 || !boxesOk) ==> r == Ok(false)
    ensures r.Err? <==> !empty1 && !empty2 && boxesOk && dist < 0.0
  {
    if empty1 || empty2 then Ok(false)
    else if !boxesOk then Ok(false)
    else if dist < 0.0 then Err(NEGATIVE_DISTANCE)
    else Ok(dist < tolerance)
  }

  /** When the distance routine returns the same value for both calls,
      dwithin holds exactly when geography_distance gives a value under the
      tolerance, and dwithin fails exactly when the distance is a non-empty
      NULL. */
  lemma DWithinMatchesDistance(empty1: bool, empty2: bool, boxesOk: bool, dist: real, tolerance: real)
    ensures DWithin(empty1, empty2, boxesOk, dist, tolerance) == Ok(true)
      <==> Distance(empty1, empty2, boxesOk, dist).Some? && Distance(empty1, empty2, boxesOk, dist).value < tolerance
    ensures DWithin(empty1, empty2, boxesOk, dist, tolerance).Err?
      <==> Distance(empty1, empty2, boxesOk, dist).None? && !empty1 && !empty2 && boxesOk
  {
  }
}
