/** LWMLINE, the multilinestring of liblwgeom: inserting a member, the
    checks made while deserializing, and spreading a measure range over the
    members in proportion to their lengths. */
module MLine {
  import opened Wrappers

  /** The messages the error paths raise. */
  const ADD_OUT_OF_RANGE := "lwmline_add: add position out of range"
  const NOT_MULTILINE := "lwmline_deserialize called on NON multiline"
  const MIXED_DIMENSIONS := "Mixed dimensions"
  const ONLY_MULTILINE := "lwmline_measured_from_lmwline: only multiline types supported"
  const ZERO_LENGTH := "division by zero: total length is 0"

  const LINETYPE := 2
  const MULTILINETYPE := 5
  const COLLECTIONTYPE := 7

  /** The largest uint32; the C literal -1 converts to it. */
  const U32MAX := 0xFFFF_FFFF

  type uint32 = x: int | 0 <= x <= U32MAX

  /** The BOX2DFLOAT4 copied out of a serialized form. */
  datatype Box2 = Box2(xmin: real, ymin: real, xmax: real, ymax: real)

  /** A member geometry: its type code, its Z and M flags and the number of
      points of its point array (0 for none). */
  datatype Geom = Geom(typ: int, hasz: bool, hasm: bool, npoints: nat)

  /** An LWMLINE. */
  datatype MultiLine = MultiLine(typ: int, hasz: bool, hasm: bool, srid: int, bbox: Option<Box2>, lines: seq<Geom>)

  /** An LWCOLLECTION built by lwmline_add. */
  datatype Coll = Coll(typ: int, srid: int, hasBBox: bool, geoms: seq<Geom>)

  /** TYPE_NDIMS: two plus one for each of Z and M. */
  function Ndims(hasz: bool, hasm: bool): (n: nat)
    ensures 2 <= n <= 4
  {
    2 + (if hasz then 1 else 0) + (if hasm then 1 else 0)
  }

  // ---------------------------------------------------------------------
  // lwmline_add

  /** `s` with `x` inserted before position `w`. */
  function Inserted(s: seq<Geom>, w: nat, x: Geom): seq<Geom>
    requires w <= |s|
  {
    s[..w] + [x] + s[w..]
  }

  /** `s` without its element `w`. */
  function Removed(s: seq<Geom>, w: nat): seq<Geom>
    requires w < |s|
  {
    s[..w] + s[w + 1..]
  }

  /** The originals before `w`, then `x`, then the rest of the originals;
      removing position `w` again gives back the input. */
  lemma InsertedProperties(s: seq<Geom>, w: nat, x: Geom)
    requires w <= |s|
    ensures |Inserted(s, w, x)| == |s| + 1
    ensures forall i :: 0 <= i < w ==> Inserted(s, w, x)[i] == s[i]
    ensures Inserted(s, w, x)[w] == x
    ensures forall i :: w <= i < |s| ==> Inserted(s, w, x)[i + 1] == s[i]
    ensures Removed(Inserted(s, w, x), w) == s
  {
    var t := Inserted(s, w, x);
    assert t[..w] == s[..w];
    assert t[w + 1..] == s[w..];
  }

  /** The position test of lwmline_add as written: `where` is a uint32, so
      `where < -1` compares it with U32MAX and holds for every position but
      the append marker. */
  function AddPositionAsWritten(where: uint32, ngeoms: nat): (r: Option<int>)
    ensures r.Some? <==> where == U32MAX
    ensures r.Some? ==> r.value == ngeoms
  {
    if where == U32MAX then Some(ngeoms)
    else if where < U32MAX || where > ngeoms then None
    else Some(where)
  }

  /** As written, only the append marker gets through: even the prepend
      position 0, which the function's comment promises, is rejected. */
  lemma AsWrittenOnlyAppends(where: uint32, ngeoms: nat)
    requires ngeoms < U32MAX
    ensures AddPositionAsWritten(where, ngeoms).Some? <==> where == U32MAX
    ensures AddPositionAsWritten(0, ngeoms) == None
    ensures AddPosition(0, ngeoms) == Some(0)
  {
  }

  /** The position test as the comment describes it: -1 appends, 0 to
      ngeoms insert before that position, anything larger is out of range. */
  function AddPosition(where: uint32, ngeoms: nat): (r: Option<nat>)
    requires ngeoms < U32MAX
    ensures r.Some? <==> where == U32MAX || where <= ngeoms
    ensures r.Some? ==> r.value <= ngeoms
    ensures r.Some? && where != U32MAX ==> r.value == where
    ensures where == U32MAX ==> r == Some(ngeoms)
  {
    if where == U32MAX then Some(ngeoms)
    else if where > ngeoms then None
    else Some(where)
  }

  /** lwmline_add with the intended position test: a copy of the members
      with `what` at the chosen position, a MULTILINE when `what` is a line
      and a COLLECTION otherwise, with `to`'s SRID and no box. */
  method Add(to: MultiLine, where: uint32, what: Geom) returns (r: Result<Coll>)
    requires |to.lines| < U32MAX
    ensures r.Err? <==> AddPosition(where, |to.lines|).None?
    ensures r.Ok? ==> var w := AddPosition(where, |to.lines|).value;
      r.value.geoms == Inserted(to.lines, w, what)
      && r.value.typ == (if what.typ == LINETYPE then MULTILINETYPE else COLLECTIONTYPE)
      && r.value.srid == to.srid && !r.value.hasBBox
  {
    var n := |to.lines|;
    var pos := AddPosition(where, n);
    if pos.None? {
      return Err(ADD_OUT_OF_RANGE);
    }
    var w := pos.value;
    var geoms := new Geom[n + 1](_ => what);
    for i := 0 to w
      invariant forall j :: 0 <= j < i ==> geoms[j] == to.lines[j]
    {
      geoms[i] := to.lines[i];
    }
    geoms[w] := what;
    for i := w to n
      invariant forall j :: 0 <= j < w ==> geoms[j] == to.lines[j]
      invariant geoms[w] == what
      invariant forall j :: w <= j < i ==> geoms[j + 1] == to.lines[j]
    {
      geoms[i + 1] := to.lines[i];
    }
    InsertedProperties(to.lines, w, what);
    assert forall j :: 0 <= j <= n ==> geoms[j] == Inserted(to.lines, w, what)[j];
    var newType := if what.typ == LINETYPE then MULTILINETYPE else COLLECTIONTYPE;
    r := Ok(Coll(newType, to.srid, false, geoms[..]));
  }

  // ---------------------------------------------------------------------
  // lwmline_deserialize

  /** What lwgeom_inspect and lwline_deserialize report about a serialized
      form: its type code and flags, SRID, cached box and members. */
  datatype Serialized = Serialized(typ: int, hasz: bool, hasm: bool, srid: int, bbox: Option<Box2>, subs: seq<Geom>)

  /** Some member has a different number of dimensions. */
  predicate MixedDims(s: Serialized) {
    exists i :: 0 <= i < |s.subs| && Ndims(s.subs[i].hasz, s.subs[i].hasm) != Ndims(s.hasz, s.hasm)
  }

  /** lwmline_deserialize: a non-MULTILINE tag and a member whose number of
      dimensions differs from the multiline's are errors; otherwise the
      multiline keeps the type, SRID, cached box and members. */
  method Deserialize(s: Serialized) returns (r: Result<MultiLine>)
    ensures r.Err? <==> s.typ != MULTILINETYPE || MixedDims(s)
    ensures r.Ok? ==> r.value == MultiLine(s.typ, s.hasz, s.hasm, s.srid, s.bbox, s.subs)
  {
    if s.typ != MULTILINETYPE {
      return Err(NOT_MULTILINE);
    }
    var nd := Ndims(s.hasz, s.hasm);
    var geoms := new Geom[|s.subs|];
    for i := 0 to |s.subs|
      invariant geoms[..i] == s.subs[..i]
      invariant forall j :: 0 <= j < i ==> Ndims(s.subs[j].hasz, s.subs[j].hasm) == nd
    {
      geoms[i] := s.subs[i];
      if Ndims(geoms[i].hasz, geoms[i].hasm) != nd {
        return Err(MIXED_DIMENSIONS);
      }
    }
    assert geoms[..] == s.subs;
    r := Ok(MultiLine(s.typ, s.hasz, s.hasm, s.srid, s.bbox, geoms[..]));
  }

  // ---------------------------------------------------------------------
  // lwmline_measured_from_lwmline

  /** The length counted for member i: its 2D length (given, one per member)
      when it has more than one point, else 0. */
  function SubLength(lines: seq<Geom>, lengths: seq<real>, i: nat): real
    requires |lengths| == |lines| && i < |lines|
  {
    if lines[i].npoints > 1 then lengths[i] else 0.0
  }

  /** The summed length of the members before member k. */
  function LengthBefore(lines: seq<Geom>, lengths: seq<real>, k: nat): real
    requires |lengths| == |lines| && k <= |lines|
  {
    if k == 0 then 0.0 else LengthBefore(lines, lengths, k - 1) + SubLength(lines, lengths, k - 1)
  }

  /** The measure given to the boundary before member k: m_start plus the
      part of the range in proportion to the length so far. */
  function MeasureAt(lines: seq<Geom>, lengths: seq<real>, mstart: real, mend: real, k: nat): real
    requires |lengths| == |lines| && k <= |lines|
    requires LengthBefore(lines, lengths, |lines|) != 0.0
  {
    Interpolate(mstart, mend - mstart, LengthBefore(lines, lengths, k), LengthBefore(lines, lengths, |lines|))
  }

  /** The measure at length `sofar` of `total`, on a range of `mrange`
      starting at `mstart`. */
  function Interpolate(mstart: real, mrange: real, sofar: real, total: real): real
    requires total != 0.0
  {
    mstart + mrange * sofar / total
  }

  /** One member of the result: lwline_measured_from_lwline applied to the
      member with its measure range. */
  datatype Part = Part(line: Geom, mstart: real, mend: real)

  datatype Measured =
    | EmptyCollection(srid: int, hasz: bool, hasm: bool)
    | MeasuredLines(typ: int, srid: int, parts: seq<Part>)

  /** lwmline_measured_from_lwmline. A non-multiline is an error, an empty
      input (`empty` is what lwgeom_is_empty answers) gives an empty
      collection with M; otherwise member i gets the range between the
      measures at its two boundaries. A zero total length would divide by
      zero and is reported as an error. */
  method MeasuredFrom(ml: MultiLine, lengths: seq<real>, empty: bool, mstart: real, mend: real)
    returns (r: Result<Measured>)
    requires |lengths| == |ml.lines|
    requires |ml.lines| == 0 ==> empty
    ensures r.Err? <==> (ml.typ != MULTILINETYPE
                         || (!empty && LengthBefore(ml.lines, lengths, |ml.lines|) == 0.0))
    ensures r.Ok? && empty ==> r.value == EmptyCollection(ml.srid, ml.hasz, true)
    ensures r.Ok? && !empty ==>
              && r.value.MeasuredLines?
              && r.value.typ == ml.typ && r.value.srid == ml.srid
              && |r.value.parts| == |ml.lines|
              && forall i :: 0 <= i < |ml.lines| ==> r.value.parts[i] == Part(ml.lines[i],
                   MeasureAt(ml.lines, lengths, mstart, mend, i),
                   MeasureAt(ml.lines, lengths, mstart, mend, i + 1))
  {
    if ml.typ != MULTILINETYPE {
      return Err(ONLY_MULTILINE);
    }
    var length := TotalLength(ml.lines, lengths);
    if empty {
      return Ok(EmptyCollection(ml.srid, ml.hasz, true));
    }
    if length == 0.0 {
      return Err(ZERO_LENGTH);
    }
    var parts := Apportion(ml.lines, lengths, length, mstart, mend);
    RangesAt(ml.lines, lengths, mstart, mend, |ml.lines|);
    r := Ok(MeasuredLines(ml.typ, ml.srid, parts));
  }

  /** The first loop of lwmline_measured_from_lwmline: the total length. */
  method TotalLength(lines: seq<Geom>, lengths: seq<real>) returns (length: real)
    requires |lengths| == |lines|
    ensures length == LengthBefore(lines, lengths, |lines|)
  {
    length := 0.0;
    for i := 0 to |lines|
      invariant length == LengthBefore(lines, lengths, i)
    {
      if lines[i].npoints > 1 {
        length := length + lengths[i];
      }
    }
  }

  /** The parts for the first k members. */
  function Ranges(lines: seq<Geom>, lengths: seq<real>, mstart: real, mend: real, k: nat): (r: seq<Part>)
    requires |lengths| == |lines| && k <= |lines|
    requires LengthBefore(lines, lengths, |lines|) != 0.0
    ensures |r| == k
  {
    if k == 0 then []
    else Ranges(lines, lengths, mstart, mend, k - 1)
         + [Part(lines[k - 1], MeasureAt(lines, lengths, mstart, mend, k - 1), MeasureAt(lines, lengths, mstart, mend, k))]
  }

  /** Part i runs from the measure at boundary i to that at boundary i+1. */
  lemma {:induction false} RangesAt(lines: seq<Geom>, lengths: seq<real>, mstart: real, mend: real, k: nat)
    requires |lengths| == |lines| && k <= |lines|
    requires LengthBefore(lines, lengths, |lines|) != 0.0
    ensures forall i :: 0 <= i < k ==>
              Ranges(lines, lengths, mstart, mend, k)[i]
              == Part(lines[i], MeasureAt(lines, lengths, mstart, mend, i), MeasureAt(lines, lengths, mstart, mend, i + 1))
  {
    if k > 0 {
      RangesAt(lines, lengths, mstart, mend, k - 1);
    }
  }

  /** The second loop: each member with its measure range, the length so
      far carried from one member to the next. */
  method Apportion(lines: seq<Geom>, lengths: seq<real>, length: real, mstart: real, mend: real)
    returns (parts: seq<Part>)
    requires |lengths| == |lines| && length == LengthBefore(lines, lengths, |lines|) && length != 0.0
    ensures parts == Ranges(lines, lengths, mstart, mend, |lines|)
  {
    var n := |lines|;
    var mrange := mend - mstart;
    var geoms := new Part[n](_ => Part(lines[0], 0.0, 0.0));
    var sofar := 0.0;
    for i := 0 to n
      invariant sofar == LengthBefore(lines, lengths, i)
      invariant geoms[..i] == Ranges(lines, lengths, mstart, mend, i)
    {
      var sublength := 0.0;
      if lines[i].npoints > 1 {
        sublength := lengths[i];
      }
      var subStart := Interpolate(mstart, mrange, sofar, length);
      var subEnd := Interpolate(mstart, mrange, sofar + sublength, length);
      assert Ranges(lines, lengths, mstart, mend, i + 1)
        == Ranges(lines, lengths, mstart, mend, i) + [Part(lines[i], subStart, subEnd)];
      ghost var done := geoms[..i];
      geoms[i] := Part(lines[i], subStart, subEnd);
      assert geoms[..i + 1] == done + [geoms[i]];
      sofar := sofar + sublength;
    }
    parts := geoms[..];
  }

  /** The first range starts at m_start and the last ends at m_end; each
      range ends where the next begins. */
  lemma MeasureEnds(lines: seq<Geom>, lengths: seq<real>, mstart: real, mend: real)
    requires |lengths| == |lines| && LengthBefore(lines, lengths, |lines|) != 0.0
    ensures MeasureAt(lines, lengths, mstart, mend, 0) == mstart
    ensures MeasureAt(lines, lengths, mstart, mend, |lines|) == mend
  {
    var total := LengthBefore(lines, lengths, |lines|);
    assert (mend - mstart) * total / total == mend - mstart;
  }

  /** With non-negative lengths the summed length never decreases. */
  lemma {:induction false} LengthBeforeMonotone(lines: seq<Geom>, lengths: seq<real>, j: nat, k: nat)
    requires |lengths| == |lines| && j <= k <= |lines|
    requires forall i :: 0 <= i < |lengths| ==> lengths[i] >= 0.0
    ensures 0.0 <= LengthBefore(lines, lengths, j) <= LengthBefore(lines, lengths, k)
    decreases k
  {
    if k > 0 {
      if j < k {
        LengthBeforeMonotone(lines, lengths, j, k - 1);
      } else {
        LengthBeforeMonotone(lines, lengths, j - 1, k - 1);
      }
    }
  }

  /** On a non-negative range, the interpolated measure grows with the
      length so far and stays between m_start and m_start + range. */
  lemma InterpolateMonotone(mstart: real, mrange: real, a: real, b: real, total: real)
    requires 0.0 <= a <= b <= total && total != 0.0 && mrange >= 0.0
    ensures mstart <= Interpolate(mstart, mrange, a, total) <= Interpolate(mstart, mrange, b, total) <= mstart + mrange
  {
    MulMono(mrange, 0.0, a);
    MulMono(mrange, a, b);
    MulMono(mrange, b, total);
    DivMono(0.0, mrange * a, total);
    DivMono(mrange * a, mrange * b, total);
    DivMono(mrange * b, mrange * total, total);
    DivCancel(mrange, total);
  }

  lemma DivCancel(m: real, t: real)
    requires t != 0.0
    ensures m * t / t == m
  {
  }

  lemma MulMono(m: real, x: real, y: real)
    requires 0.0 <= m && x <= y
    ensures m * x <= m * y
  {
    assert m * y - m * x == m * (y - x);
  }

  lemma DivMono(x: real, y: real, t: real)
    requires x <= y && t > 0.0
    ensures x / t <= y / t
  {
    assert y / t - x / t == (y - x) / t;
  }

  /** With non-negative lengths and m_start <= m_end, the boundary measures
      climb from m_start to m_end, so every range lies inside [m_start,
      m_end] and has its start at most its end. */
  lemma MeasureMonotone(lines: seq<Geom>, lengths: seq<real>, mstart: real, mend: real, j: nat, k: nat)
    requires |lengths| == |lines| && j <= k <= |lines|
    requires LengthBefore(lines, lengths, |lines|) != 0.0
    requires forall i :: 0 <= i < |lengths| ==> lengths[i] >= 0.0
    requires mstart <= mend
    ensures mstart <= MeasureAt(lines, lengths, mstart, mend, j) <= MeasureAt(lines, lengths, mstart, mend, k) <= mend
  {
    var n := |lines|;
    LengthBeforeMonotone(lines, lengths, j, k);
    LengthBeforeMonotone(lines, lengths, k, n);
    InterpolateMonotone(mstart, mend - mstart, LengthBefore(lines, lengths, j), LengthBefore(lines, lengths, k), LengthBefore(lines, lengths, n));
  }
}
