# PostGIS 1.5.3 core logic in Dafny

This project models the sequential logic that PostGIS 1.5.3 runs around its
geometry values, and proves properties of it. The geometry kernel, GEOS, the
PostgreSQL function manager and the spheroid mathematics are not modelled; where
the code calls them, the model takes their answers as inputs.

The model has one module per source file:

- `JtsWriter` (`jts_writer.dfy`) covers the PL/Java binary writer for JTS geometries.
  It writes a type byte, an optional SRID and a body for each geometry class, recursing
  into collections. A `SqlOutput` class stands for the output stream. The byte-count
  estimator is a set of recursive functions, proved exact except in two cases shown below.
- `BBoxCache` (`bbox_cache.dfy`) covers `LWGEOM_addBBOX` and `LWGEOM_dropBBOX` on the
  serialized form, written over arrays. It also covers the "worth caching" rule and the
  XDR/NDR byte-order choice of the WKB writers.
- `Gidx` (`gidx.dfy`) covers the GIDX key of the geography GiST index. This includes
  validate and merge in place; overlaps, contains and equals across dimensionalities;
  the three volumes; penalty; the consistency dispatch; and inserting a box into a
  `GSERIALIZED`.
- `GidxPicksplit` (`gidx_picksplit.dfy`) covers the bookkeeping of
  `geography_gist_picksplit`: page union, the BELOW/ABOVE partition of every axis,
  `badratio`, the half-and-half fallback and the choice of axis.
- `Box3D` (`box3d.dfy`) covers BOX3D: parsing and normalising (`BOX3D_in`),
  `expand_box3d` on a box object, combine, the accessors, the cast to a geometry and
  the two-point constructor.
- `Dump` (`dump.dfy`) covers `ST_Dump` and `ST_DumpRings`. The dump state is a class
  holding the explicit stack of (collection, child index) nodes that the set-returning
  function keeps between calls. Every call advances it to the next leaf, which is proved
  to be the next row of a depth-first reference enumeration.
- `MLine` (`mline.dfy`) covers `lwmline_add`, the checks of `lwmline_deserialize`, and
  the apportioning of a measure range over the members of `lwmline_measured_from_lwmline`.
- `GeogMeasure` (`geog_measure.dfy`) covers `geography_bestsrid`, `geography_expand`,
  and the empty and error guards of `geography_area`, `geography_distance` and
  `geography_dwithin`.
- `GeosWrap` (`geos_wrap.dfy`) covers the logic of the GEOS wrappers:
  - the `buffer()` parameter parser;
  - upper-casing a relate pattern;
  - the NULL-bitmap walk and path choice of `pgis_union_geometry_array`;
  - the bounding-box short-circuits of the spatial predicates;
  - the point-in-polygon shortcut.
- `Topology` (`topology.dfy`) covers the table updates of the topology procedures. One
  topology's `edge_data`, `node`, `layer` and `relation` tables are fields of a class.
  `AddTopoGeometryColumn`, `CreateTopoGeom`, `ST_NewEdgesSplit`, `ST_ModEdgesSplit`,
  `ST_RemoveIsoEdge` and `ST_AddIsoEdge` are methods on it. `intersects` and `equals`
  of TopoGeometries are functions.
- `Wrappers` (`wrappers.dfy`) defines `Option` (SQL NULL) and `Result` (an error raised
  with `elog(ERROR)`, `ereport` or an exception).

Integers are unbounded unless the source's width matters. Where it does, the model
uses `uint32`, `bv8` and `bv16`. Floating-point values are modelled as reals.

## Model

| member | source | states |
|---|---|---|
| JtsWriter.WkbType | postgis-1.5.3/java/pljava/src/org/postgis/pljava/PLJtsWriter.java:119-137 | each JTS class maps to its WKB code (a LinearRing, being a LineString, to LINESTRING); an unknown class has no code (the throw) |
| JtsWriter.CoordDim | postgis-1.5.3/java/pljava/src/org/postgis/pljava/PLJtsWriter.java:320-328 | the coordinate dimension is 2 for every geometry and 0 exactly for a missing one |
| JtsWriter.TypeWord | postgis-1.5.3/java/pljava/src/org/postgis/pljava/PLJtsWriter.java:74-84 | the type byte carries the plain type in its low nibble, the Z bit iff the dimension is 3 or 4, the M bit iff it is 4, the SRID bit iff an SRID is written, and never the high bit |
| JtsWriter.CoordFields | postgis-1.5.3/java/pljava/src/org/postgis/pljava/PLJtsWriter.java:153-159 | writeCoordinates writes two doubles per coordinate, x then y, in order |
| JtsWriter.EmitPartsStops | postgis-1.5.3/java/pljava/src/org/postgis/pljava/PLJtsWriter.java:193-198 | once a part throws, the loop over parts writes nothing more |
| JtsWriter.EmitHeader | postgis-1.5.3/java/pljava/src/org/postgis/pljava/PLJtsWriter.java:63-117 | a geometry of a class getWKBType does not know writes nothing and fails; any other begins with its type byte (its WKB code, two dimensions, the SRID bit) followed by its SRID when checkSrid holds |
| JtsWriter.EstimateCoversHeader | postgis-1.5.3/java/pljava/src/org/postgis/pljava/PLJtsWriter.java:201-318 | an unknown class has no estimate; any other estimate covers the type byte, the SRID when written and at least a 4-byte count (EstimateIsExact ties it to the bytes written) |
| JtsWriter.WriteBinary | postgis-1.5.3/java/pljava/src/org/postgis/pljava/PLJtsWriter.java:57-59 | a missing geometry throws before anything is written; otherwise the output grows by exactly what writeGeometry emits |
| JtsWriter.WriteGeometry | postgis-1.5.3/java/pljava/src/org/postgis/pljava/PLJtsWriter.java:63-117 | appends the type byte, the SRID when checkSrid holds, then the body for the geometry's class; an unknown class throws |
| JtsWriter.WriteBody | postgis-1.5.3/java/pljava/src/org/postgis/pljava/PLJtsWriter.java:92-116 | the switch appends the body of the geometry's class and fails exactly when a part fails |
| JtsWriter.WriteCoordinates | postgis-1.5.3/java/pljava/src/org/postgis/pljava/PLJtsWriter.java:153-159 | appends the ordinates of every coordinate in order |
| JtsWriter.WriteLineString | postgis-1.5.3/java/pljava/src/org/postgis/pljava/PLJtsWriter.java:168-171 | appends the point count followed by the coordinates |
| JtsWriter.WritePolygon | postgis-1.5.3/java/pljava/src/org/postgis/pljava/PLJtsWriter.java:173-179 | appends the ring count (holes + 1), the shell as a line string, then each hole as a line string |
| JtsWriter.WriteParts | postgis-1.5.3/java/pljava/src/org/postgis/pljava/PLJtsWriter.java:161-166 | writes parts 0 .. n-1 in order, stopping at the first failure; an index past the last part fails |
| JtsWriter.CoordFieldsBytes | postgis-1.5.3/java/pljava/src/org/postgis/pljava/PLJtsWriter.java:246-248 | each written coordinate takes 16 bytes, the point size the estimator counts |
| JtsWriter.LineFieldsBytes | postgis-1.5.3/java/pljava/src/org/postgis/pljava/PLJtsWriter.java:287-293 | a written line string takes exactly what estimateLineString predicts |
| JtsWriter.RingsFieldsBytes | postgis-1.5.3/java/pljava/src/org/postgis/pljava/PLJtsWriter.java:299-301 | the holes take exactly what the hole loop of estimatePolygon predicts |
| JtsWriter.HeaderBytes | postgis-1.5.3/java/pljava/src/org/postgis/pljava/PLJtsWriter.java:205-210 | the header is 1 byte, plus 4 when an SRID is written |
| JtsWriter.PolygonBytes | postgis-1.5.3/java/pljava/src/org/postgis/pljava/PLJtsWriter.java:295-303 | a written polygon body takes exactly what estimatePolygon predicts |
| JtsWriter.EstimateIsExact | postgis-1.5.3/java/pljava/src/org/postgis/pljava/PLJtsWriter.java:201-238 | for every geometry without an empty point or an unknown class, and whose MultiPoints are uniform, writing succeeds and estimateBytes equals the number of bytes written |
| JtsWriter.BodyIsExact | postgis-1.5.3/java/pljava/src/org/postgis/pljava/PLJtsWriter.java:212-236 | under the same condition the estimate of each class's body equals the bytes its writer emits |
| JtsWriter.MultiPointBodyExact | postgis-1.5.3/java/pljava/src/org/postgis/pljava/PLJtsWriter.java:276-285 | the MultiPoint shortcut (part count times the first part's size) is exact when every part is a non-empty point like the first |
| JtsWriter.ArrayBodyExact | postgis-1.5.3/java/pljava/src/org/postgis/pljava/PLJtsWriter.java:305-318 | the count plus the parts' estimates is exact for MultiLineString, MultiPolygon and GeometryCollection |
| JtsWriter.ArrayExact | postgis-1.5.3/java/pljava/src/org/postgis/pljava/PLJtsWriter.java:251-257 | the sum of the parts' estimates equals the bytes the parts write |
| JtsWriter.MultiPointCount | postgis-1.5.3/java/pljava/src/org/postgis/pljava/PLJtsWriter.java:161-166 | for a MultiPoint of non-empty points, getNumPoints equals the number of parts, so writeMultiPoint visits every part |
| JtsWriter.PointBytes | postgis-1.5.3/java/pljava/src/org/postgis/pljava/PLJtsWriter.java:246-248 | a non-empty point is written in exactly as many bytes as a point with the same SRID rule is estimated to take |
| JtsWriter.MultiPointParts | postgis-1.5.3/java/pljava/src/org/postgis/pljava/PLJtsWriter.java:276-285 | n uniform points are written in n times the first point's estimate |
| JtsWriter.EmptyPointOverestimate | postgis-1.5.3/java/pljava/src/org/postgis/pljava/PLJtsWriter.java:246-248 | estimatePoint counts 16 bytes for an empty point, which writeCoordinates writes none for |
| JtsWriter.NoZmBits | postgis-1.5.3/java/pljava/src/org/postgis/pljava/PLJtsWriter.java:68-90 | every written type byte has Z and M clear, its SRID bit set iff checkSrid holds, and then the SRID follows |
| JtsWriter.MultiPointWithEmptyPart | postgis-1.5.3/java/pljava/src/org/postgis/pljava/PLJtsWriter.java:161-166 | a MultiPoint whose first point is empty is written as one part of two, and the second point is lost |
| BBoxCache.MakeType | postgis-1.5.3/postgis/lwgeom_inout.c:371-374 | the rebuilt type byte has each of the Z, M, SRID and bbox bits exactly as asked and keeps the geometry type |
| BBoxCache.WithBBoxMeaning | postgis-1.5.3/postgis/lwgeom_inout.c:449-452 | rebuilding the type byte sets or clears only the bbox bit, and leaves a byte that already agrees unchanged |
| BBoxCache.AddBBoxLayout | postgis-1.5.3/postgis/lwgeom_inout.c:332-386 | a form that has a box, or whose box cannot be computed, is copied unchanged; otherwise it grows by 16 bytes, gains the bbox bit and no other, the box follows the type byte and every later byte follows the box |
| BBoxCache.DropBBoxLayout | postgis-1.5.3/postgis/lwgeom_inout.c:420-458 | a form without a box is copied unchanged; otherwise it shrinks by 16 bytes, loses the bbox bit and no other, and the bytes after the box follow the type byte |
| BBoxCache.DropAfterAdd | postgis-1.5.3/postgis/lwgeom_inout.c:332-458 | dropping a box just added gives back the original form |
| BBoxCache.AddAfterDrop | postgis-1.5.3/postgis/lwgeom_inout.c:332-458 | adding back the box just dropped gives back the original form |
| BBoxCache.AddDropIdempotent | postgis-1.5.3/postgis/lwgeom_inout.c:342-351 | adding twice is adding once, and dropping twice is dropping once |
| BBoxCache.AddBBox | postgis-1.5.3/postgis/lwgeom_inout.c:332-386 | returns a fresh buffer holding the form with the box added, by the copy paths and the three copies of the source |
| BBoxCache.DropBBox | postgis-1.5.3/postgis/lwgeom_inout.c:420-458 | returns a fresh buffer holding the form with the box taken out |
| BBoxCache.CopyOf | postgis-1.5.3/postgis/lwgeom_inout.c:342-351 | the copy path returns a fresh buffer equal to the input |
| BBoxCache.WorthCachingExactlyNonPoints | postgis-1.5.3/postgis/lwgeom_inout.c:388-416 | with automatic caching on, every type except a point is worth caching a box for |
| BBoxCache.CacheIfWorthItHasBox | postgis-1.5.3/postgis/lwgeom_inout.c:220-224 | after LWGEOMFromWKB a form gains a box exactly when it is not a point and its box can be computed |
| BBoxCache.ByteOrderOf | postgis-1.5.3/postgis/lwgeom_inout.c:122-144 | no argument keeps the unset order; a payload shorter than three bytes is an error; the ASCII bytes of "xdr" or "XDR" as its first three bytes select XDR, anything else NDR |
| BBoxCache.MixedCaseIsNdr | postgis-1.5.3/postgis/lwgeom_inout.c:135-143 | the bytes of "Xdr" select NDR, those of "xdrfoo" XDR, those of "ND" are refused, and the three UTF-8 bytes of the two-character "é1" pass the length test and select NDR |
| Gidx.ValidatedProperties | postgis-1.5.3/postgis/geography_gist.c:147-163 | after gidx_validate every dimension has min <= max, each pair holds the same two values, a valid box is unchanged and validating twice is validating once |
| Gidx.Validate | postgis-1.5.3/postgis/geography_gist.c:147-163 | swaps in place the bounds of each dimension whose min exceeds its max, leaving the array equal to the validated box |
| Gidx.MergedProperties | postgis-1.5.3/postgis/geography_gist.c:167-197 | the merge takes the min of mins and the max of maxes on b_new's dimensions, keeps the union's other dimensions, contains both boxes and keeps a valid union valid |
| Gidx.MergedSelf | postgis-1.5.3/postgis/geography_gist.c:167-197 | merging a box into itself changes nothing |
| Gidx.Merge | postgis-1.5.3/postgis/geography_gist.c:167-197 | updates the union array in place to the merged box |
| Gidx.UnionAllContains | postgis-1.5.3/postgis/geography_gist.c:935-962 | the union of a set of valid keys is valid and contains each of them |
| Gidx.GistUnion | postgis-1.5.3/postgis/geography_gist.c:935-962 | returns a fresh copy of the first key with every other key merged into it, in order |
| Gidx.GidxOverlaps | postgis-1.5.3/postgis/geography_gist.c:430-460 | true iff neither box is NULL, the shared dimensions' intervals meet, and every extra dimension of the larger box contains 0; the answer does not depend on argument order |
| Gidx.GidxContains | postgis-1.5.3/postgis/geography_gist.c:467-503 | true iff neither box is NULL, a's interval contains b's on the shared dimensions, and b's dimensions beyond a's are exactly [0, 0] |
| Gidx.GidxEquals | postgis-1.5.3/postgis/geography_gist.c:509-538 | two NULLs are equal, one NULL is not; otherwise the shared dimensions agree and the extra ones are [0, 0]; symmetric |
| Gidx.EqualIsMutualContain | postgis-1.5.3/postgis/geography_gist.c:467-538 | equality is containment both ways |
| Gidx.EqualSameDims | postgis-1.5.3/postgis/geography_gist.c:509-538 | for boxes of the same dimensionality, gidx_equals is equality of the coordinate arrays |
| Gidx.ContainTransitive | postgis-1.5.3/postgis/geography_gist.c:467-503 | containment is transitive when the middle box has at least the outer box's dimensions |
| Gidx.ContainImpliesOverlap | postgis-1.5.3/postgis/geography_gist.c:430-503 | a box containing a valid box of the same dimensionality overlaps it |
| Gidx.ProdNonneg | postgis-1.5.3/postgis/geography_gist.c:200-214 | a product of non-negative widths is non-negative |
| Gidx.ProdMonotone | postgis-1.5.3/postgis/geography_gist.c:228-271 | the product is monotone in non-negative factors |
| Gidx.GidxVolume | postgis-1.5.3/postgis/geography_gist.c:200-214 | a NULL box has volume 0, any other the product of its widths |
| Gidx.GidxUnionVolume | postgis-1.5.3/postgis/geography_gist.c:228-271 | two NULLs are an error, one NULL gives the other's volume, otherwise the product of the union's widths with the extra dimensions of the larger box |
| Gidx.UnionVolumeOrdered | postgis-1.5.3/postgis/geography_gist.c:243-268 | the loops over the shared and then the extra dimensions compute the product of the union's widths |
| Gidx.UnionVolumeExtra | postgis-1.5.3/postgis/geography_gist.c:261-268 | the last loop multiplies in the widths of the dimensions only the larger box has |
| Gidx.GidxInterVolume | postgis-1.5.3/postgis/geography_gist.c:274-306 | a NULL argument is an error; otherwise the product of overlaps on the shared dimensions, 0 as soon as one is negative |
| Gidx.InterVolumeOrdered | postgis-1.5.3/postgis/geography_gist.c:285-305 | the early-exit loop computes the intersection volume of the ordered pair |
| Gidx.VolumeNonneg | postgis-1.5.3/postgis/geography_gist.c:200-214 | a valid box has a non-negative volume |
| Gidx.InterVolumeBounds | postgis-1.5.3/postgis/geography_gist.c:274-306 | the intersection of two valid boxes has a volume between 0 and the smaller box's volume |
| Gidx.UnionVolumeAtLeast | postgis-1.5.3/postgis/geography_gist.c:228-271 | the union of two valid boxes has at least the larger box's volume |
| Gidx.Penalty | postgis-1.5.3/postgis/geography_gist.c:887-929 | the penalty is the union volume less the original volume, so no new key (or two NULL keys) costs 0 and a NULL original key costs the whole volume of the new key |
| Gidx.PenaltyZeroWhenContained | postgis-1.5.3/postgis/geography_gist.c:887-929 | merging a key the original key already contains costs nothing |
| Gidx.PenaltyNonneg | postgis-1.5.3/postgis/geography_gist.c:887-929 | adding a valid key to a valid key of no fewer dimensions never has a negative penalty |
| Gidx.ConsistentLeaf | postgis-1.5.3/postgis/geography_gist.c:753-782 | overlap, same, contains and contained-by (old and new numbers) are the exact relations on a leaf key; every other strategy is false |
| Gidx.ConsistentInternal | postgis-1.5.3/postgis/geography_gist.c:787-814 | an internal key is searched on overlap for overlap and contained-by, and on containment for same and contains; every other strategy is false |
| Gidx.Consistent | postgis-1.5.3/postgis/geography_gist.c:821-878 | a NULL key or query is never consistent; otherwise the leaf or internal test by the entry kind |
| Gidx.InternalCoversLeaf | postgis-1.5.3/postgis/geography_gist.c:753-814 | a key that contains a matching valid leaf of the same dimensionality passes the internal test, so the search never prunes a match |
| Gidx.InsertIntoGser | postgis-1.5.3/postgis/geography_gist.c:379-422 | the box is inserted exactly when its dimensionality matches the serialized geometry's |
| Gidx.InsertLayout | postgis-1.5.3/postgis/geography_gist.c:379-422 | the result has the same SRID, the bbox flag set and every other flag kept, the box's float image at the start of its data, and then the data without any old box |
| Gidx.InsertTwice | postgis-1.5.3/postgis/geography_gist.c:379-422 | inserting a second box replaces the first: the result is that of inserting the second box once |
| GidxPicksplit.RangeElements | postgis-1.5.3/postgis/geography_gist.c:1042-1072 | the offsets the fallback loop visits are lo, lo + 1, …, hi - 1 in order |
| GidxPicksplit.PageUnion | postgis-1.5.3/postgis/geography_gist.c:1206-1225 | returns a fresh union of every entry from the first offset on, and reports all entries equal exactly when every entry equals the first |
| GidxPicksplit.UnionStep | postgis-1.5.3/postgis/geography_gist.c:1214-1222 | one round merges the key into the union and clears the all-equal flag iff the key differs from the union so far |
| GidxPicksplit.PrefixUnionIsUnionAll | postgis-1.5.3/postgis/geography_gist.c:1214-1222 | the union built by the loop after i rounds is the union of the keys it has seen |
| GidxPicksplit.AllEqualUnion | postgis-1.5.3/postgis/geography_gist.c:1227-1232 | when all entries are equal, the page union is that entry |
| GidxPicksplit.SideStep | postgis-1.5.3/postgis/geography_gist.c:1261-1271 | entry n goes to exactly one of the two halves of axis d, by the min/max distance test |
| GidxPicksplit.SidesCount | postgis-1.5.3/postgis/geography_gist.c:1257-1273 | the two counters of an axis add up to the number of entries |
| GidxPicksplit.SideOrdered | postgis-1.5.3/postgis/geography_gist.c:1257-1273 | each half holds offsets of the page in strictly increasing order |
| GidxPicksplit.SidesPartition | postgis-1.5.3/postgis/geography_gist.c:1257-1273 | every offset is in exactly one half of every axis: BELOW iff its min is nearer the page's min than its max is to the page's max |
| GidxPicksplit.AddListUnion | postgis-1.5.3/postgis/geography_gist.c:986-994 | addlist appends the offset and keeps the list's union box equal to the union of its keys |
| GidxPicksplit.Partition | postgis-1.5.3/postgis/geography_gist.c:1241-1273 | lists BELOW(d) and ABOVE(d) of every axis hold the two halves of the page, each with its union box |
| GidxPicksplit.AddEntry | postgis-1.5.3/postgis/geography_gist.c:1261-1271 | the inner loop adds entry i to one half of each axis and keeps every union |
| GidxPicksplit.AddEntrySides | postgis-1.5.3/postgis/geography_gist.c:1263-1270 | adding entry i on axis d extends the half it goes to and leaves the other unchanged |
| GidxPicksplit.AddEntryUnions | postgis-1.5.3/postgis/geography_gist.c:986-994 | the list an entry is added to keeps its union box |
| GidxPicksplit.ListUnionContains | postgis-1.5.3/postgis/geography_gist.c:986-994 | every key of a list is contained in the list's union box |
| GidxPicksplit.BadRatioMeaning | postgis-1.5.3/postgis/geography_gist.c:1000-1008 | a split of x and y entries is bad iff a half is empty or one half is more than ten times the other |
| GidxPicksplit.RatioBelowLimit | postgis-1.5.3/postgis/geography_gist.c:1003-1004 | the quotient falls below LIMIT_RATIO exactly when ten times the numerator is below the denominator |
| GidxPicksplit.BadRatios | postgis-1.5.3/postgis/geography_gist.c:1010-1019 | true iff every axis is badly balanced |
| GidxPicksplit.Fallback | postgis-1.5.3/postgis/geography_gist.c:1026-1084 | the first (maxoff - 1 + 1) / 2 offsets go left and the rest right, in order, each half with the union of its keys |
| GidxPicksplit.FallbackAdd | postgis-1.5.3/postgis/geography_gist.c:1046-1071 | one step appends the offset and copies the first key or merges later ones into the half's union |
| GidxPicksplit.FallbackStep | postgis-1.5.3/postgis/geography_gist.c:1049-1056 | the half's union after the step is the union of its keys |
| GidxPicksplit.ChooseAxis | postgis-1.5.3/postgis/geography_gist.c:1352-1359 | with no axis the direction stays -1; otherwise it is the first axis whose fuller half is largest |
| GidxPicksplit.FullestIsNotMostEven | postgis-1.5.3/postgis/geography_gist.c:1346-1359 | the loop picks the axis with the fullest half, not the most even one the comment above it asks for |
| GidxPicksplit.PickSplit | postgis-1.5.3/postgis/geography_gist.c:1182-1387 | the page decides the plan: it is cut in half by the fallback exactly when all entries are equal; otherwise the centre-point retry is taken exactly when every axis is badly balanced, and an axis split on the first fullest axis, with that axis's two halves, exactly when some axis is balanced |
| GidxPicksplit.PartitionListsAre | postgis-1.5.3/postgis/geography_gist.c:1241-1273 | the lists the partition builds are determined by the page alone |
| Box3D.Box3Ref.constructor | postgis-1.5.3/postgis/lwgeom_box3d.c:57 | a new box holds the given bounds |
| Box3D.Box3Ref.Expand | postgis-1.5.3/postgis/lwgeom_box3d.c:290-300 | expand_box3d moves every minimum down and every maximum up by d, in place |
| Box3D.Box3Ref.Normalise | postgis-1.5.3/postgis/lwgeom_box3d.c:86-103 | the three swaps leave the box with each minimum at most its maximum, in place |
| Box3D.Mind | postgis-1.5.3/postgis/lwgeom_box3d.c:471-477 | the result is one of the two arguments and at most both |
| Box3D.Maxd | postgis-1.5.3/postgis/lwgeom_box3d.c:480-486 | the result is one of the two arguments and at least both |
| Box3D.AccessorsIgnoreOrder | postgis-1.5.3/postgis/lwgeom_box3d.c:334-374 | the accessors return an ordered pair on every axis, agree with the normalised box, and return the stored bounds of a valid box |
| Box3D.NormalisedProperties | postgis-1.5.3/postgis/lwgeom_box3d.c:86-103 | normalising gives a valid box with the same pair of values on each axis and leaves a valid box unchanged |
| Box3D.BoxIn | postgis-1.5.3/postgis/lwgeom_box3d.c:53-105 | the input is refused exactly when it does not start with "BOX3D(" or neither scan form matches; otherwise the result is a fresh box holding the scanned bounds, normalised |
| Box3D.ParsedBoxes | postgis-1.5.3/postgis/lwgeom_box3d.c:56-83 | every parsed box is valid, and the four-number form has both z bounds 0 |
| Box3D.ExpandedContains | postgis-1.5.3/postgis/lwgeom_box3d.c:290-300 | growing by d >= 0 contains the original, shrinking is contained in it, and expanding by -d undoes expanding by d |
| Box3D.BoxExpand | postgis-1.5.3/postgis/lwgeom_box3d.c:302-313 | returns a fresh copy of the box expanded by d, leaving the argument alone |
| Box3D.UnionProperties | postgis-1.5.3/postgis/lwgeom_box3d.c:420-430 | the per-axis min/max union contains both boxes, is the least box that does, and is commutative and associative |
| Box3D.Combine | postgis-1.5.3/postgis/lwgeom_box3d.c:377-433 | NULL with NULL is NULL; a NULL box gives the geometry's box (NULL for an empty geometry); a NULL or empty geometry gives the box; otherwise the union |
| Box3D.ToLwgeom | postgis-1.5.3/postgis/lwgeom_box3d.c:209-287 | a box with one x and one y value becomes a point, one with exactly one degenerate axis a two-point line, any other the single ring (xmin,ymin), (xmin,ymax), (xmax,ymax), (xmax,ymin), (xmin,ymin), which visits the four corners clockwise with a signed area of minus the box's area; always SRID -1 and no cached box |
| Box3D.BoxRingClockwise | postgis-1.5.3/postgis/lwgeom_box3d.c:258-270 | the five-point ring built for a box has twice the signed (shoelace) area -2 (xmax - xmin)(ymax - ymin), so it runs clockwise |
| Box3D.Construct | postgis-1.5.3/postgis/lwgeom_box3d.c:435-468 | succeeds exactly for two points with the same SRID, giving the first point's coordinates as minima and the second's as maxima, so the box is valid iff the points are ordered |
| Box3D.ConstructKeepsOrder | postgis-1.5.3/postgis/lwgeom_box3d.c:455-465 | for any two points of one SRID that are out of order on some axis, ST_MakeBox3D still succeeds but gives an invalid box whose xmin is the first point's x while the LW_MIN accessor gives the smaller x |
| Dump.RowsAddressed | postgis-1.5.3/postgis/lwgeom_dump.c:151-160 | every row's path leads, by 1-based member positions, from the root to a non-collection member, and the row holds that member with the root's SRID |
| Dump.ChildRowsAddressed | postgis-1.5.3/postgis/lwgeom_dump.c:151-160 | the same for the rows of a collection's members from a given position on |
| Dump.RowsCount | postgis-1.5.3/postgis/lwgeom_dump.c:141-185 | ST_Dump returns one row per non-collection member, so an empty collection returns none |
| Dump.ChildRowsCount | postgis-1.5.3/postgis/lwgeom_dump.c:141-185 | the members from a given position on give one row per non-collection member among them |
| Dump.MemberShallower | postgis-1.5.3/postgis/lwgeom_dump.c:165-176 | a member is less deeply nested than its collection, so each PUSH goes one level deeper |
| Dump.LinkedDepth | postgis-1.5.3/postgis/lwgeom_dump.c:43-55 | each node of the stack is one collection deeper than the node below it, so the stack never holds more nodes than the root's nesting depth |
| Dump.ChainAdvance | postgis-1.5.3/postgis/lwgeom_dump.c:184 | advancing the top index keeps the stack a chain of collections from the root |
| Dump.ChainPush | postgis-1.5.3/postgis/lwgeom_dump.c:173-176 | pushing the member collection under the top index keeps the chain |
| Dump.ChainPop | postgis-1.5.3/postgis/lwgeom_dump.c:183-184 | popping an exhausted node and advancing its parent keeps the chain |
| Dump.PushPending | postgis-1.5.3/postgis/lwgeom_dump.c:173-176 | entering a member collection leaves the rows still owed unchanged |
| Dump.PushMeasure | postgis-1.5.3/postgis/lwgeom_dump.c:173-176 | entering a member collection makes progress |
| Dump.PopStep | postgis-1.5.3/postgis/lwgeom_dump.c:183-184 | leaving an exhausted collection leaves the rows still owed unchanged and makes progress |
| Dump.EmitStep | postgis-1.5.3/postgis/lwgeom_dump.c:146-163 | a non-collection under the top index is the next row owed, with the path of the stack's indexes plus one, and advancing the index owes the rest |
| Dump.DumpState.constructor | postgis-1.5.3/postgis/lwgeom_dump.c:77-119 | the first call pushes a collection root with index 0; the rows still owed are exactly ST_Dump's rows |
| Dump.DumpState.WriteAddress | postgis-1.5.3/postgis/lwgeom_dump.c:152-160 | the address written is each node's index plus one, bottom to top |
| Dump.DumpState.Enter | postgis-1.5.3/postgis/lwgeom_dump.c:165-180 | PUSH of a member collection keeps the state consistent and the rows owed, and makes progress |
| Dump.DumpState.Leave | postgis-1.5.3/postgis/lwgeom_dump.c:183-184 | POP of an exhausted inner collection keeps the state consistent and the rows owed, and makes progress |
| Dump.DumpState.Emit | postgis-1.5.3/postgis/lwgeom_dump.c:187-194 | returns the first row owed, with the root's SRID, and advances past it |
| Dump.DumpState.Finish | postgis-1.5.3/postgis/lwgeom_dump.c:183 | popping the exhausted root ends the set when no row is owed |
| Dump.DumpState.Next | postgis-1.5.3/postgis/lwgeom_dump.c:121-195 | one call returns the next row owed and removes it, or ends the set when none is left; a non-collection root gives its one row with the empty path |
| Dump.Dump | postgis-1.5.3/postgis/lwgeom_dump.c:59-195 | calling until the end yields exactly the depth-first rows, members left to right, each path the 1-based positions |
| Dump.RingDumpState.constructor | postgis-1.5.3/postgis/lwgeom_dump.c:233-237 | the state starts at ring 0 and owes one row per ring |
| Dump.RingDumpState.Next | postgis-1.5.3/postgis/lwgeom_dump.c:264-299 | one call returns the next ring row and advances, or ends the set after the last ring |
| Dump.DumpRings | postgis-1.5.3/postgis/lwgeom_dump.c:218-299 | a non-polygon is an error; a polygon yields its ring rows in order |
| Dump.RingRowsFromAt | postgis-1.5.3/postgis/lwgeom_dump.c:265-296 | the rows from ring k on are one per remaining ring, in order |
| Dump.RingRowsRings | postgis-1.5.3/postgis/lwgeom_dump.c:276-286 | row k is ring k alone as a polygon with the input's SRID and the 0-based path {k} |
| MLine.Ndims | postgis-1.5.3/liblwgeom/lwmline.c:66 | the number of dimensions is two plus one for each of Z and M, so between 2 and 4 |
| MLine.InsertedProperties | postgis-1.5.3/liblwgeom/lwmline.c:104-113 | the new member array holds the originals before the position, then the added member, then the rest of the originals shifted by one; removing the added member gives back the originals |
| MLine.AddPositionAsWritten | postgis-1.5.3/liblwgeom/lwmline.c:93-99 | as written, the test lets exactly the append marker through, which appends after the last member; every other position is refused |
| MLine.AsWrittenOnlyAppends | postgis-1.5.3/liblwgeom/lwmline.c:93-99 | with the position test as written every position except the append marker is refused, even the documented prepend position 0 |
| MLine.AddPosition | postgis-1.5.3/liblwgeom/lwmline.c:79-99 | the documented test: -1 appends at the end, any position from 0 to the member count is kept, every other position is out of range |
| MLine.Add | postgis-1.5.3/liblwgeom/lwmline.c:86-124 | out-of-range positions are an error; otherwise the result holds the members with the new one inserted at the position, is a MULTILINE when the new member is a line and a COLLECTION otherwise, keeps the SRID and has no box |
| MLine.Deserialize | postgis-1.5.3/liblwgeom/lwmline.c:25-77 | a non-MULTILINE tag or a member with a different number of dimensions is an error; otherwise the type, SRID, box and members are those of the serialized form |
| MLine.MeasuredFrom | postgis-1.5.3/liblwgeom/lwmline.c:131-185 | a non-multiline is an error and an empty input gives an empty collection with M; otherwise member i gets the measures at its two boundaries, in proportion to the length before it |
| MLine.TotalLength | postgis-1.5.3/liblwgeom/lwmline.c:148-156 | the first loop sums the 2D lengths of the members with more than one point |
| MLine.RangesAt | postgis-1.5.3/liblwgeom/lwmline.c:165-182 | part i runs from the measure at boundary i to the measure at boundary i + 1 |
| MLine.Apportion | postgis-1.5.3/liblwgeom/lwmline.c:163-184 | the second loop gives each member its range, carrying the length so far |
| MLine.MeasureEnds | postgis-1.5.3/liblwgeom/lwmline.c:176-177 | the first member starts at m_start and the last ends at m_end |
| MLine.LengthBeforeMonotone | postgis-1.5.3/liblwgeom/lwmline.c:165-182 | with non-negative lengths the length so far never decreases |
| MLine.InterpolateMonotone | postgis-1.5.3/liblwgeom/lwmline.c:176-177 | on a non-negative measure range the interpolated measure grows with the length so far and stays within the range |
| MLine.MeasureMonotone | postgis-1.5.3/liblwgeom/lwmline.c:165-182 | with non-negative lengths and m_start <= m_end, the boundary measures are ordered and stay between m_start and m_end |
| GeogMeasure.Choose | postgis-1.5.3/postgis/geography_measurement.c:524-562 | two boxes both starting above 65 degrees get Lambert north; every answer is Lambert north or south, Mercator, or the UTM South or North code of the zone of the average x; an x extent of 6 degrees or more never gets a UTM code |
| GeogMeasure.BestSridAsWritten | postgis-1.5.3/postgis/geography_measurement.c:472-521 | as written: an argument whose box cannot be computed is an error; the one-argument form never answers NULL, while the two-argument form answers NULL exactly when both are empty |
| GeogMeasure.BestSridEmptySameAsWritten | postgis-1.5.3/postgis/geography_measurement.c:472-521 | as written, the one-argument form on an empty geography picks a projection from an uninitialised box (UTM North zone 31 when that memory is zero) instead of returning NULL |
| GeogMeasure.BestSrid | postgis-1.5.3/postgis/geography_measurement.c:463-564 | an argument whose box cannot be computed is an error; otherwise the answer is NULL exactly when every argument is empty, and an empty side takes the other's box |
| GeogMeasure.BestSridAgrees | postgis-1.5.3/postgis/geography_measurement.c:492-521 | the corrected function gives the code's answer whenever the datums differ or the single argument is not empty |
| GeogMeasure.BestSridNull | postgis-1.5.3/postgis/geography_measurement.c:512-514 | NULL exactly when every argument is empty; the one-argument form equals the two-argument form on two copies |
| GeogMeasure.BestSridSymmetric | postgis-1.5.3/postgis/geography_measurement.c:512-562 | with distinct arguments the answer does not depend on their order |
| GeogMeasure.ChooseSymmetric | postgis-1.5.3/postgis/geography_measurement.c:524-562 | the projection tests are symmetric in the two boxes |
| GeogMeasure.ChooseOnLongitudes | postgis-1.5.3/postgis/geography_measurement.c:524-562 | on longitudes in [-180, 180] the zone is 1 to 61, and each answer (Lambert north, Lambert south, UTM South, UTM North, Mercator) comes from exactly its own case; every answer is negative |
| GeogMeasure.GrownProperties | postgis-1.5.3/postgis/geography_measurement.c:210-214 | every min moves down and every max up by d; growing by d >= 0 contains the original and keeps it valid; growing by -d undoes it |
| GeogMeasure.GrowInPlace | postgis-1.5.3/postgis/geography_measurement.c:210-214 | the loop over the three dimensions grows the box in place |
| GeogMeasure.Expand | postgis-1.5.3/postgis/geography_measurement.c:184-226 | an empty input comes back unchanged; otherwise the box grown by distance over the radius is written into the serialized form, and a dimension mismatch is an error |
| GeogMeasure.UseSpheroid | postgis-1.5.3/postgis/geography_measurement.c:271-280 | the spheroid is used only when asked for and the box neither reaches a pole nor crosses the equator |
| GeogMeasure.Area | postgis-1.5.3/postgis/geography_measurement.c:233-300 | an empty input has area 0; a missing box or a negative area is an error; otherwise the spheroid or sphere area, never negative |
| GeogMeasure.Distance | postgis-1.5.3/postgis/geography_measurement.c:40-102 | NULL exactly when an input is empty, a box cannot be computed or the distance is negative; otherwise the distance |
| GeogMeasure.DWithin | postgis-1.5.3/postgis/geography_measurement.c:109-172 | FALSE for an empty input or a missing box; a negative distance is an error; otherwise whether the distance is under the tolerance |
| GeogMeasure.DWithinMatchesDistance | postgis-1.5.3/postgis/geography_measurement.c:40-172 | given the same distance, dwithin holds exactly when geography_distance gives a value under the tolerance |
| GeosWrap.WordLen | postgis-1.5.3/postgis/lwgeom_geos.c:876 | the leading word is the run of non-space characters up to the first space or the end |
| GeosWrap.Tokens | postgis-1.5.3/postgis/lwgeom_geos.c:873-877 | strtok with a space delimiter returns the maximal runs of non-space characters, each non-empty and without a space |
| GeosWrap.TokensOfSpaced | postgis-1.5.3/postgis/lwgeom_geos.c:873-877 | a string built from words, each followed by one space, is split back into exactly those words |
| GeosWrap.FirstEq | postgis-1.5.3/postgis/lwgeom_geos.c:881 | strchr finds the first '=', or reports none |
| GeosWrap.ParseToken | postgis-1.5.3/postgis/lwgeom_geos.c:880-965 | a token is accepted only with a non-empty value after its first '='. An end cap or join style comes from its own key and is one of the three styles; a mitre limit or quad_segs keeps the value text. A refusal prints the source's texts: "Missing value for buffer parameter" with the whole token, the end cap text with the value for a bad endcap, the same end cap text with the join list for a bad join, and "Invalid buffer parameter" with the key for any other key |
| GeosWrap.ParseTokenTable | postgis-1.5.3/postgis/lwgeom_geos.c:880-965 | nothing after '=' is a missing value whatever the key; a token is accepted exactly for the end caps round, flat, butt and square, the joins round, mitre, miter and bevel, and any value of mitre_limit, miter_limit or quad_segs |
| GeosWrap.NoEqualsIsMissing | postgis-1.5.3/postgis/lwgeom_geos.c:882-887 | a token without '=' is a missing value |
| GeosWrap.JoinErrorSaysEndCap | postgis-1.5.3/postgis/lwgeom_geos.c:938-943 | for every value, a bad join is reported as an invalid end cap style; only the list of accepted values tells the two messages apart |
| GeosWrap.ParseBufferParams | postgis-1.5.3/postgis/lwgeom_geos.c:866-973 | the loop reads the tokens in order from the defaults (8 segments, round end cap, round join, mitre limit 5) and stops at the first bad one; no tokens keep the defaults |
| GeosWrap.WordEnd | postgis-1.5.3/postgis/lwgeom_geos.c:876 | strtok's scan ends at the next space or the end of the string |
| GeosWrap.ParseFailsIff | postgis-1.5.3/postgis/lwgeom_geos.c:873-966 | the parameters are refused exactly when one of the tokens is bad |
| GeosWrap.LaterEndCapWins | postgis-1.5.3/postgis/lwgeom_geos.c:893-921 | a later end-cap token overrides the one before it and changes nothing else |
| GeosWrap.EndCapKept | postgis-1.5.3/postgis/lwgeom_geos.c:893-921 | without an end-cap token the end cap stays the default |
| GeosWrap.NormalisePattern | postgis-1.5.3/postgis/lwgeom_geos.c:2521-2525 | the loop upper-cases every 't' and 'f' of the pattern in place |
| GeosWrap.NormalisedPatternProperties | postgis-1.5.3/postgis/lwgeom_geos.c:2518-2525 | the pattern keeps its length, holds no lower-case 't' or 'f', keeps every other character, and normalising twice is normalising once |
| GeosWrap.Flags | postgis-1.5.3/postgis/lwgeom_geos.c:252 | element i is present when there is no bitmap or its bit is set |
| GeosWrap.AdvanceBitmap | postgis-1.5.3/postgis/lwgeom_geos.c:275-284 | shifting the mask and stepping to the next byte at 0x100 moves the cursor from the bit of element i to the bit of element i + 1 |
| GeosWrap.MaskStep | postgis-1.5.3/postgis/lwgeom_geos.c:278-283 | the mask walks the eight bits of a byte and wraps to bit 0 of the next |
| GeosWrap.NullFlags | postgis-1.5.3/postgis/lwgeom_geos.c:249-285 | the bitmap walk reports exactly which elements are present |
| GeosWrap.PresentIndicesIff | postgis-1.5.3/postgis/lwgeom_geos.c:249-285 | the positions visited are exactly the present ones, each once and in increasing order |
| GeosWrap.MismatchSpreads | postgis-1.5.3/postgis/lwgeom_geos.c:257-266 | once an element's SRID differs from the first present one's, the SRIDs cannot agree |
| GeosWrap.AnyZIff | postgis-1.5.3/postgis/lwgeom_geos.c:400 | the Z flag of the incremental path is set iff some present element has Z |
| GeosWrap.UnionArray | postgis-1.5.3/postgis/lwgeom_geos.c:188-467 | no elements is NULL; one element is itself or NULL; otherwise an SRID mismatch or failed GEOS union is an error, all-polygonal input goes through the cascaded union and the rest through pairwise unions, NULL when nothing is present |
| GeosWrap.FirstPass | postgis-1.5.3/postgis/lwgeom_geos.c:246-285 | the first pass reports an SRID mismatch only when there is one, and otherwise whether every present element is a polygon or multipolygon |
| GeosWrap.CascadedPass | postgis-1.5.3/postgis/lwgeom_geos.c:287-378 | the cascaded path counts one GEOS polygon per polygon and per multipolygon part, gives the first element's SRID and Z flag, and NULL when there is nothing to unite or GEOS fails |
| GeosWrap.IncrementalPass | postgis-1.5.3/postgis/lwgeom_geos.c:379-457 | the incremental path unites every present element, fails on an SRID mismatch or GEOS failure, and keeps Z when any element has it |
| GeosWrap.CascadedTakesFirstZ | postgis-1.5.3/postgis/lwgeom_geos.c:257-262 | the cascaded path keeps only the first element's Z flag, where the incremental path keeps any element's |
| GeosWrap.ApartIff | postgis-1.5.3/postgis/lwgeom_geos.c:2247-2250 | two proper boxes are apart exactly when no point lies in both |
| GeosWrap.SticksIff | postgis-1.5.3/postgis/lwgeom_geos.c:1589-1592 | a proper box sticks out of another exactly when one of its points lies outside it |
| GeosWrap.BoxShortcutMeaning | postgis-1.5.3/postgis/lwgeom_geos.c:2244-2250 | for proper boxes, overlaps, crosses, intersects and touches answer false, and disjoint true, exactly when no point lies in both boxes; contains, containsproperly and covers answer false exactly when a point of the second box lies outside the first (within and coveredby the other way round); no box test ever gives the answer that only GEOS can give |
| GeosWrap.BoxShortcutSwaps | postgis-1.5.3/postgis/lwgeom_geos.c:1920-1926 | within's test is contains' with the arguments swapped, coveredby's is covers'; intersects, touches, disjoint and equals ignore order |
| GeosWrap.DisjointMirrorsIntersects | postgis-1.5.3/postgis/lwgeom_geos.c:2451-2457 | disjoint's box test fires exactly when intersects' does, with the opposite answer |
| GeosWrap.BoxShortcutAsWritten | postgis-1.5.3/postgis/lwgeom_geos.c:1515-1522 | as written, every predicate but overlaps, crosses and geomequals uses the intended box test, and for a proper second box a written test that fires gives the intended answer |
| GeosWrap.AsWrittenMissesYmin | postgis-1.5.3/postgis/lwgeom_geos.c:1521 | as written, the last test of overlaps and crosses never fires on a proper box and equals never looks at ymin; every other predicate's test is the intended one |
| GeosWrap.AsWrittenCounterexamples | postgis-1.5.3/postgis/lwgeom_geos.c:2177 | boxes wholly apart on y pass the written overlaps and crosses tests, and boxes differing only in ymin pass the written equals test (line 2639), where the intended tests answer at once |
| GeosWrap.PipMeaning | postgis-1.5.3/postgis/lwgeom_geos.c:1596-1650 | for a polygon and a point, contains (and within, swapped) hold only strictly inside, covers (and coveredby, swapped) and intersects also on the boundary, so contains implies covers |
| GeosWrap.Decide | postgis-1.5.3/postgis/lwgeom_geos.c:1557-1688 | the corrected decision of a guarded predicate. A collection argument and then differing SRIDs are errors before any shortcut. Then come the intended box test, point-in-polygon and GEOS. GEOS's result 2 is an error with the predicate's own message (containsproperly reuses contains', disjoint's reads "disjoin"). Otherwise the answer differs from GEOS's only when a shortcut fires, and a box test that fires wins over the point-in-polygon test |
| GeosWrap.DecideSwaps | postgis-1.5.3/postgis/lwgeom_geos.c:1894-2015 | within is contains with the arguments swapped and coveredby is covers swapped, failing together and otherwise agreeing (only the GEOS error text differs); intersects is symmetric, errors included |
| Topology.EdgeRow | postgis-1.5.3/topology/topology.sql.in.c:1623-1631 | a row inserted through the edge view has abs columns that agree with its signed next edges |
| Topology.RewireRight | postgis-1.5.3/topology/topology.sql.in.c:2821-2826 | the UPDATE keeps every row, changes next_right_edge and its abs column only where it equals the matched value, and leaves the excluded rows alone |
| Topology.RewireLeft | postgis-1.5.3/topology/topology.sql.in.c:2834-2839 | the UPDATE keeps every row and changes next_left_edge and its abs column only where it equals the matched value |
| Topology.RedirectedSteps | postgis-1.5.3/topology/topology.sql.in.c:2821-2845 | the four UPDATEs of ST_NewEdgesSplit, run in order on a row, send a next_right of anedge to e2 and of -anedge to -e1, a next_left of anedge to e1 and of -anedge to -e2 |
| Topology.SplitEdges | postgis-1.5.3/topology/topology.sql.in.c:2766-2845 | ST_NewEdgesSplit removes the old edge and adds its two halves, one from the old start to the new node and one from the node to the old end; no other edge changes its endpoints or faces |
| Topology.SplitEdgesPointwise | postgis-1.5.3/topology/topology.sql.in.c:2766-2845 | after ST_NewEdgesSplit the old edge is gone and its halves are in: e1 runs from the old start to the new node, e2 from the new node to the old end, both keep the old faces, e1 turns left onto e2 and e2 right onto -e1, and every other edge is only redirected |
| Topology.RedirectedClean | postgis-1.5.3/topology/topology.sql.in.c:2821-2845 | a redirected row names neither direction of the old edge and keeps its abs columns consistent |
| Topology.SplitEdgesNoDangling | postgis-1.5.3/topology/topology.sql.in.c:2766-2845 | after ST_NewEdgesSplit no next edge names the old edge in either direction and every row's abs columns agree with its signed ones |
| Topology.SplitEdgesReferences | postgis-1.5.3/topology/topology.sql.in.c:2795-2845 | ST_NewEdgesSplit keeps the foreign keys on abs_next_left_edge and abs_next_right_edge: every next edge still exists |
| Topology.ModSplitEdgesAsWritten | postgis-1.5.3/topology/topology.sql.in.c:3036-3080 | as written, ST_ModEdgesSplit adds the new edge and gets the endpoints right: the old edge now ends at the node, the new one runs from the node to the old end, and no other edge changes its endpoints or faces |
| Topology.ModSplitAsWrittenBreaks | postgis-1.5.3/topology/topology.sql.in.c:3054-3072 | as written, for every edge that can be split, the new edge ends up with next_right_edge equal to its own reverse and the old edge's abs_next_left_edge disagrees with its next_left_edge |
| Topology.ModSplitEdgesShape | postgis-1.5.3/topology/topology.sql.in.c:3036-3079 | after the intended ST_ModEdgesSplit the old edge runs from its start to the new node and turns left onto the new edge, which runs from the node to the old end, keeps the old faces and turns right back onto the old edge |
| Topology.ModSplitEdgesClean | postgis-1.5.3/topology/topology.sql.in.c:3054-3079 | after the intended split only the new edge names -anedge, as its next right edge, and every row's abs columns agree with its signed ones |
| Topology.SplitRelationProperties | postgis-1.5.3/topology/topology.sql.in.c:2853-2913 | after ST_NewEdgesSplit no relation row names the old edge, every other row is kept, and each old row has one same-sign replacement for each half |
| Topology.AddThenRemoveIsoEdge | postgis-1.5.3/topology/topology.sql.in.c:3322-3329 | an edge added between two isolated nodes passes every check of ST_RemoveIsoEdge, and removing it gives back the edge table it was added to |
| Topology.LayerTypeCodeIff | postgis-1.5.3/topology/topology.sql.in.c:545-556 | the layer type names POINT, LINE, POLYGON and COLLECTION and the codes 1 to 4 correspond one to one, and every other name is refused |
| Topology.CheckedRows | postgis-1.5.3/topology/topology.sql.in.c:862-900 | the element loop fails exactly when some element does not fit the layer (its type at level 0, the child layer above) or its INSERT breaks the relation table's UNIQUE constraint (the row is already stored, or an earlier element is the same pair); otherwise it yields one relation row per element, as many rows as elements, none of them already stored |
| Topology.RepeatedElementRefused | postgis-1.5.3/topology/topology.sql.in.c:1642-1648 | an element array that holds the same (id, type) pair twice is always refused |
| Topology.IntersectsOrder | postgis-1.5.3/topology/topology.sql.in.c:1776-1815 | intersects() refuses TopoGeometries of different topologies, a pair whose larger type is a collection, and a hierarchical layer; otherwise it passes on the two arguments ordered by type |
| Topology.IntersectsOrderProperties | postgis-1.5.3/topology/topology.sql.in.c:1776-1815 | intersects() hands the per-type tests its two arguments ordered by type with no collection, and refuses any pair with a collection |
| Topology.IntersectsOrderSymmetric | postgis-1.5.3/topology/topology.sql.in.c:1776-1815 | swapping the arguments of intersects() does not change whether it is refused, nor the pair when the types differ |
| Topology.TopoEquals | postgis-1.5.3/topology/topology.sql.in.c:2197-2256 | equals() is an error across topologies or for two collections; otherwise TopoGeometries of different types, or with different element sets, are not equal |
| Topology.TopoEqualsIff | postgis-1.5.3/topology/topology.sql.in.c:2197-2256 | equals() holds exactly for two TopoGeometries of one topology and one non-collection type with the same elements, and does not depend on argument order |
| Topology.Topology.constructor | postgis-1.5.3/topology/topology.sql.in.c:1501-1660 | a new topology has no edges, nodes, layers or relation rows |
| Topology.Topology.AddTopoGeometryColumn | postgis-1.5.3/topology/topology.sql.in.c:511-600 | an unknown layer type or a missing child layer is an error and changes nothing; otherwise the new layer row has the type's code, level 0 without a child and one above the child's level with one |
| Topology.Topology.CreateTopoGeom | postgis-1.5.3/topology/topology.sql.in.c:803-911 | it fails exactly for a type outside 1 to 4, an unknown layer, a layer type that admits neither this type nor collections, no elements, or an element that does not fit or whose relation row breaks the UNIQUE constraint; otherwise it adds one new relation row per element and returns the new TopoGeometry |
| Topology.Topology.NewEdgesSplit | postgis-1.5.3/topology/topology.sql.in.c:2680-2925 | it fails, changing nothing, exactly when the edge does not exist, the point is not on it or a node already sits there; otherwise it adds the node, replaces the edge by its two halves and rewrites the relation |
| Topology.Topology.SplitEdgeRows | postgis-1.5.3/topology/topology.sql.in.c:2766-2845 | the edge_data statements of ST_NewEdgesSplit: delete, insert the halves, then the four UPDATEs |
| Topology.Topology.ReplaceRelations | postgis-1.5.3/topology/topology.sql.in.c:2853-2913 | the relation loop of ST_NewEdgesSplit replaces each matching row by its two same-sign replacements |
| Topology.Topology.AddRelations | postgis-1.5.3/topology/topology.sql.in.c:3090-3122 | the relation loop of ST_ModEdgesSplit adds a same-sign row for the new edge beside each matching row |
| Topology.Topology.ModEdgesSplit | postgis-1.5.3/topology/topology.sql.in.c:2933-3131 | it fails, changing nothing, exactly when the edge does not exist, the point is not on it or a node already sits there; otherwise it adds the node, cuts the edge at it, adds the new edge and extends the relation |
| Topology.Topology.RemoveIsoEdge | postgis-1.5.3/topology/topology.sql.in.c:2607-2670 | it removes the edge exactly when it exists, has the same face on both sides and shares no node with another edge; otherwise nothing changes |
| Topology.Topology.AddIsoEdge | postgis-1.5.3/topology/topology.sql.in.c:3139-3336 | it inserts the edge exactly when both nodes exist and differ, their faces do not clash, both are isolated and the curve checks pass; the edge turns back onto itself at both ends and has the face of the node scanned last (0 when none) on both sides |
| Topology.Scanned | postgis-1.5.3/topology/topology.sql.in.c:3196-3217 | the node scan returns the existing nodes among the two, each once, and both of them exactly when both exist and differ |
| Topology.ReplaceRows | postgis-1.5.3/topology/topology.sql.in.c:2866-2913 | for each matching row, the DELETE and the two INSERTs together replace the matching rows by their retargeted copies for each half |
| Topology.AddRows | postgis-1.5.3/topology/topology.sql.in.c:3099-3122 | the INSERT for each matching row adds its retargeted copy for the new edge |

## Left out

- Geometry values are abstract. The serialized-form codec, `lwgeom_deserialize`, `lwgeom_inspect`, `pglwgeom_serialize` and `lwgeom_is_empty` are not part of this model. Their results are inputs: byte sequences, member records, or booleans such as `empty`.
- The type-byte layout (BBOX 0x80, SRID 0x40, Z 0x20, M 0x10, type in the low nibble) and the `GSERIALIZED` flag layout (BBOX 0x04, Z and M bits) are taken as given. `liblwgeom.h` is not part of this model. The same goes for the type codes POINTTYPE 1, LINETYPE 2, POLYGONTYPE 3, MULTIPOINTTYPE 4, MULTILINETYPE 5, MULTIPOLYGONTYPE 6 and COLLECTIONTYPE 7.
- Floating point is modelled as reals. This covers the `float` storage of GIDX keys and of `BOX2DFLOAT4`, the `float` temporary that `BOX3D_in` swaps through, the `FPeq`/`FP_TOLERANCE` comparisons, and rounding in the volumes, penalty and bestsrid arithmetic. `Gidx.InsertIntoGser` takes the float encoding as a function parameter.
- `getbox2d_p`, `compute_serialized_box3d`, `lwgeom_calculate_gbox` and `gserialized_calculate_gbox_geocentric_p` are inputs, given as `Option` boxes. `nextUp_f`/`nextDown_f` are not modelled.
- GEOS is an input:
  - its predicates are a boolean or a failure (the result 2), given as `Option<bool>`;
  - `GEOSUnion` and `GEOSUnionCascaded` are a success flag;
  - the GEOS buffer itself is not modelled.
  - The point-in-polygon routines are an input result of -1, 0 or 1.
- The GEOS < 3.2 branch of `buffer()` is not modelled; the model follows the branch that parses parameters.
- `atof`, `atoi` and `sscanf` are inputs. BOX3D's text scan is a `Scan` outcome.
- `strtok` is modelled as taking slices of the parameter string rather than writing `'\0'` into a copy.
- PostgreSQL plumbing is not modelled: argument fetching, detoasting, `palloc`, memory contexts, SRF tuple building, the GiST entry structs and `INTALIGN` padding. Errors are `Err` values.
- `GidxPicksplit.Page`: the picksplit methods require every key of a page to have the same number of dimensions. The C code does not check this. With mixed keys, the page union takes the largest count, and the axis loop at geography_gist.c lines 1261-1273 then reads a smaller key past its last dimension. Those pages are not modelled.
- `GidxPicksplit.Fallback` does not model merging into `spl_ldatum`/`spl_rdatum` unions that already exist.
- `GidxPicksplit.Partition` computes the two unions of each axis as values, not in the caller's arrays.
- The centre-point retry of picksplit is only the `CenterMethod` outcome; its `FPeq` tests are floating point.
- `GidxPicksplit.PickSplit`: an `AxisSplit` names the BELOW and ABOVE halves of the chosen axis, not the left and right sides of the split. `geography_gist_picksplit_constructsplit` (geography_gist.c lines 1094-1165) places them. When `spl_ldatum` or `spl_rdatum` already exists, it compares intersection volumes or penalties and merges the old unions. That placement and merge are not modelled; without an existing datum, BELOW goes left.
- In the bitmap walk of `pgis_union_geometry_array`, the element pointer advances with `INTALIGN(VARSIZE)`. The model indexes a sequence of members instead.
- `GeosWrap.NullFlags` models the bitmap walk once. `UnionArray` uses the flags it defines.
- `errorIfGeometryCollection` (lwgeom_geos.c lines 1323-1355) fails on a collection argument. Its hint text, which prints the argument, is not modelled. `errorIfSRIDMismatch` is not part of this model; it is taken to fail exactly on differing SRIDs, with the message that `SRID_MISMATCH` holds.
- The spheroid and sphere distance and area computations are inputs. So are `spheroid_init`, the `geography_distance` value and the `geography_area` value.
- `GeogMeasure.DWithinMatchesDistance`: `geography_dwithin` calls the distance routine with the caller's tolerance, but `geography_distance` calls it with `FP_TOLERANCE`. The lemma is therefore stated for equal distances returned by the two calls.
- `Box3D.ToLwgeom` returns a geometry value (kind, points, SRID, no box) instead of serialized bytes. `lwgeom_to_hexwkb`/`serialized_lwgeom_from_ewkt` are not modelled.
- `BOX3D_out`, `BOX3D_extent`, `BOX3D_to_BOX2DFLOAT4` and the other conversions are outside the listed operations.
- `Dump.Dump` requires the nesting depth to be at most `MAXDEPTH` (32). As written, `PUSH` does not check the bound, so deeper nesting overruns the fixed stack array; that behaviour is not modelled.
- Dump works on a collection tree value. Cloning, `lwgeom_release` and the row tuple text are not modelled.
- `MLine.MeasuredFrom` treats zero total length on a non-empty multiline as an error. In the C code this is a division by zero.
- `lwline_measured_from_lwline` is an input: each member becomes a `Part` record with its measure range.
- Lengths from `lwgeom_length2d` are inputs.
- `JtsWriter.Estimate`: the estimate is an unbounded integer. `estimateBytes` and its helpers return a Java `int`, so an estimate past 2^31 - 1 bytes would wrap around; that overflow is not modelled.
- `JtsWriter.WriteGeometry`: counts are unbounded integers. This covers the point, ring and part counts and `getNumInteriorRing() + 1` (PLJtsWriter.java lines 162-194). The 32-bit `int` that `writeInt` takes is not modelled.
- `JtsWriter.SqlOutput` is a list of typed fields (byte, int, double). JDBC's `SQLOutput` encoding and the Java exception classes are not modelled.
- Topology:
  - Sequence values (`nextval`) are parameters that the caller must give fresh.
  - The DDL, the face table, `topology.topology`, `pg_depend` and the layer and relation triggers are not part of this model.
  - Geometry columns and the spatial tests (`within`, `line_substring`, the node and edge intersection scans, the curve checks of `ST_AddIsoEdge`) are booleans.
- `Topology.Topology.AddIsoEdge` checks the curve, represented by one `spatialOk` flag, after the node checks. The source tests the curve's type and simplicity first. The set of accepted calls is the same; the error message can differ.
- The row order of `ST_AddIsoEdge`'s node scan is a parameter, `anothernodeLast`, because it decides the face kept when one node's face is NULL.
- `GetTopoGeomElements` is an input, given as element sets, to `Topology.TopoEquals`. The per-type intersection tests after the argument swap in `intersects()` are not modelled.
- `Topology.Topology.AddTopoGeometryColumn` looks up the child layer only among this topology's layers. The SQL looks it up by `layer_id` across all topologies.

## Findings

| source | as written | input that shows it | evidently intended | confidence | as-written member | corrected member |
|---|---|---|---|---|---|---|
| postgis-1.5.3/liblwgeom/lwmline.c:93-99 | `where < -1` compares an unsigned position with UINT32_MAX, so every position except the append marker is refused | `where = 0` (prepend) on any multiline | -1 appends, 0 to ngeoms inserts there, larger positions are refused | not executed | MLine.AsWrittenOnlyAppends | MLine.AddPosition |
| postgis-1.5.3/postgis/geography_measurement.c:492-521 | the one-argument form copies the first box but not its emptiness flag, so an empty geography picks a zone from an uninitialised box | an empty geography passed as the same datum twice: with zeroed memory the answer is -32631 instead of NULL | both emptiness flags are copied, so an empty input gives NULL | not executed | GeogMeasure.BestSridEmptySameAsWritten | GeogMeasure.BestSridAgrees |
| postgis-1.5.3/postgis/lwgeom_geos.c:1521 | overlaps and crosses (line 2177) test `box2.ymin > box2.ymax`, and geomequals (line 2639) tests `box2.ymin != box2.ymin`; these tests never fire | box1 = (0,0)-(1,1) and box2 = (0,2)-(1,3) for overlaps and crosses; box2 = (0,0.5)-(1,1) for equals | test `box2.ymin > box1.ymax`, and for equals `box2.ymin != box1.ymin` | not executed | GeosWrap.AsWrittenCounterexamples | GeosWrap.BoxShortcutMeaning |
| postgis-1.5.3/topology/topology.sql.in.c:3054-3072 | the old edge's `abs_next_left_edge` is not updated, and the `WHERE next_right_edge = -anedge` rewrite also hits the new edge, so the new edge points at its own reverse | any split by `ST_ModEdgesSplit` | the old edge's abs column follows its new next edge and the rewrite leaves the new edge alone | not executed | Topology.ModSplitAsWrittenBreaks | Topology.ModSplitEdgesClean |

## Remarks

These are differences between the code and its comments or its neighbours. Each is proved about the model; none is corrected in it.

- `JtsWriter.EmptyPointOverestimate`: the estimator counts 16 bytes of coordinates for an empty point, which writes none.
- `JtsWriter.MultiPointWithEmptyPart`: `writeMultiPoint` writes `getNumPoints()` as the part count. With an empty part, the count disagrees with the parts, and a later point is lost. The estimate is proved exact only for geometries without these cases.
- `GeosWrap.CascadedTakesFirstZ`: the cascaded union keeps only the first element's Z flag. The incremental union keeps Z when any element has it.
- `GeosWrap.JoinErrorSaysEndCap`: a bad `join=` value raises "Invalid buffer end cap style", the end cap message, with the join styles as the accepted list.
- `GidxPicksplit.FullestIsNotMostEven`: the comment above the axis loop of picksplit asks for the most even split. The loop takes the first axis whose fuller half is largest.
- `GeogMeasure.BestSrid`: the antarctic test, like the arctic one, looks at `ymin`. A box that only dips below -65 but reaches far north still gets the south polar projection. The model follows the code.
