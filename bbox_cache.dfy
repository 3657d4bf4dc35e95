/** Adding and removing the cached 2D bounding box of a serialized geometry.
    The serialized form starts with one type byte; when its bbox bit is set,
    the 16-byte BOX2DFLOAT4 follows immediately and the rest of the form comes
    after it. Also the rule for which geometries get a box cached, and the
    byte-order argument of the WKB writers. */
module BBoxCache {
  import opened Wrappers

  // Type byte layout: bbox 0x80, SRID 0x40, Z 0x20, M 0x10, the geometry
  // type in the low four bits.
  const BBOX_BIT: bv8 := 0x80
  const SRID_BIT: bv8 := 0x40
  const Z_BIT: bv8 := 0x20
  const M_BIT: bv8 := 0x10
  const TYPE_MASK: bv8 := 0x0F
  const POINTTYPE: bv8 := 1

  /** sizeof(BOX2DFLOAT4): four 4-byte floats */
  const BOX_SIZE: nat := 16

  /** POSTGIS_AUTOCACHE_BBOX */
  const AUTOCACHE_BBOX: bool := true

  predicate HasBBox(t: bv8) { t & BBOX_BIT != 0 }
  predicate HasSrid(t: bv8) { t & SRID_BIT != 0 }
  predicate HasZ(t: bv8) { t & Z_BIT != 0 }
  predicate HasM(t: bv8) { t & M_BIT != 0 }
  function GeomType(t: bv8): bv8 { t & TYPE_MASK }

  /** lwgeom_makeType_full */
  function MakeType(hasz: bool, hasm: bool, hassrid: bool, typ: bv8, hasbbox: bool): (t: bv8)
    requires typ <= TYPE_MASK
    ensures HasZ(t) == hasz && HasM(t) == hasm && HasSrid(t) == hassrid
    ensures HasBBox(t) == hasbbox && GeomType(t) == typ
  {
    typ | (if hasz then Z_BIT else 0) | (if hasm then M_BIT else 0)
        | (if hassrid then SRID_BIT else 0) | (if hasbbox then BBOX_BIT else 0)
  }

  /** The type byte rebuilt from an old one with the bbox bit set or cleared. */
  function WithBBox(old_type: bv8, hasbbox: bool): bv8 {
    MakeType(HasZ(old_type), HasM(old_type), HasSrid(old_type), GeomType(old_type), hasbbox)
  }

  /** Two type bytes that agree on every bit other than the bbox bit. */
  predicate SameButBBox(a: bv8, b: bv8) {
    HasZ(a) == HasZ(b) && HasM(a) == HasM(b) && HasSrid(a) == HasSrid(b) && GeomType(a) == GeomType(b)
  }

  lemma WithBBoxMeaning(t: bv8, hasbbox: bool)
    ensures HasBBox(WithBBox(t, hasbbox)) == hasbbox
    ensures SameButBBox(WithBBox(t, hasbbox), t)
    ensures HasBBox(t) == hasbbox ==> WithBBox(t, hasbbox) == t
  {
  }

  /** LWGEOM_addBBOX on the serialized form `s`; `box` is what getbox2d_p
      computes for it, None for an empty geometry. */
  function AddBBoxSpec(s: seq<bv8>, box: Option<seq<bv8>>): seq<bv8>
    requires |s| >= 1
  {
    if HasBBox(s[0]) || box.None? then s
    else [WithBBox(s[0], true)] + box.value + s[1..]
  }

  /** LWGEOM_dropBBOX on the serialized form `s`. */
  function DropBBoxSpec(s: seq<bv8>): seq<bv8>
    requires |s| >= 1
    requires HasBBox(s[0]) ==> |s| >= 1 + BOX_SIZE
  {
    if !HasBBox(s[0]) then s
    else [WithBBox(s[0], false)] + s[1 + BOX_SIZE..]
  }

  /** A form that already has a box, or that has no computable box, is
      copied unchanged. Otherwise the result is 16 bytes longer, its type
      byte has the bbox bit and keeps every other bit, the box follows the
      type byte, and every later input byte follows the box unchanged. */
  lemma AddBBoxLayout(s: seq<bv8>, box: Option<seq<bv8>>)
    requires |s| >= 1 && (box.Some? ==> |box.value| == BOX_SIZE)
    ensures HasBBox(s[0]) || box.None? ==> AddBBoxSpec(s, box) == s
    ensures !HasBBox(s[0]) && box.Some? ==>
      var r := AddBBoxSpec(s, box);
      && |r| == |s| + BOX_SIZE
      && HasBBox(r[0]) && SameButBBox(r[0], s[0])
      && r[1..1 + BOX_SIZE] == box.value
      && (forall i :: 1 <= i < |s| ==> r[i + BOX_SIZE] == s[i])
  {
    if !HasBBox(s[0]) && box.Some? {
      WithBBoxMeaning(s[0], true);
      var r := AddBBoxSpec(s, box);
      assert r[1..1 + BOX_SIZE] == box.value;
    }
  }

  /** A form without a box is copied unchanged. Otherwise the result is 16
      bytes shorter, the bbox bit is cleared and no other bit changes, and
      the bytes after the box follow the type byte unchanged. */
  lemma DropBBoxLayout(s: seq<bv8>)
    requires |s| >= 1 && (HasBBox(s[0]) ==> |s| >= 1 + BOX_SIZE)
    ensures !HasBBox(s[0]) ==> DropBBoxSpec(s) == s
    ensures HasBBox(s[0]) ==>
      var r := DropBBoxSpec(s);
      && |r| == |s| - BOX_SIZE
      && !HasBBox(r[0]) && SameButBBox(r[0], s[0])
      && (forall i :: 1 <= i < |r| ==> r[i] == s[i + BOX_SIZE])
  {
    if HasBBox(s[0]) {
      WithBBoxMeaning(s[0], false);
    }
  }

  /** Dropping a box just added gives back the original form. */
  lemma DropAfterAdd(s: seq<bv8>, box: seq<bv8>)
    requires |s| >= 1 && !HasBBox(s[0]) && |box| == BOX_SIZE
    ensures DropBBoxSpec(AddBBoxSpec(s, Some(box))) == s
  {
    var r := AddBBoxSpec(s, Some(box));
    WithBBoxMeaning(s[0], true);
    var t := WithBBox(s[0], true);
    assert WithBBox(t, false) == s[0] by {
      WithBBoxMeaning(t, false);
      WithBBoxMeaning(s[0], false);
    }
    assert r[1 + BOX_SIZE..] == s[1..];
    assert [s[0]] + s[1..] == s;
  }

  /** Adding the box already taken out of a form gives it back. */
  lemma AddAfterDrop(s: seq<bv8>)
    requires |s| >= 1 + BOX_SIZE && HasBBox(s[0])
    ensures AddBBoxSpec(DropBBoxSpec(s), Some(s[1..1 + BOX_SIZE])) == s
  {
    var d := DropBBoxSpec(s);
    WithBBoxMeaning(s[0], false);
    var t := WithBBox(s[0], false);
    assert WithBBox(t, true) == s[0] by {
      WithBBoxMeaning(t, true);
      WithBBoxMeaning(s[0], true);
    }
    assert d[1..] == s[1 + BOX_SIZE..];
    assert [s[0]] + s[1..1 + BOX_SIZE] + s[1 + BOX_SIZE..] == s;
  }

  /** Both operations are idempotent. A second addBBOX is a copy whatever
      box it would compute, unless the first one found no box: then the
      form is unchanged and the second one finds no box either. */
  lemma AddDropIdempotent(s: seq<bv8>, box: Option<seq<bv8>>, box2: Option<seq<bv8>>)
    requires |s| >= 1 && (box.Some? ==> |box.value| == BOX_SIZE)
    requires HasBBox(s[0]) ==> |s| >= 1 + BOX_SIZE
    requires box.None? ==> box2.None?
    ensures AddBBoxSpec(AddBBoxSpec(s, box), box2) == AddBBoxSpec(s, box)
    ensures DropBBoxSpec(DropBBoxSpec(s)) == DropBBoxSpec(s)
  {
    if !HasBBox(s[0]) && box.Some? {
      WithBBoxMeaning(s[0], true);
      assert AddBBoxSpec(s, box)[0] == WithBBox(s[0], true);
    }
    DropBBoxLayout(s);
  }

  /** LWGEOM_addBBOX: a fresh buffer filled by the three copies of the
      source. */
  method AddBBox(lw: array<bv8>, box: Option<seq<bv8>>) returns (result: array<bv8>)
    requires lw.Length >= 1
    requires box.Some? ==> |box.value| == BOX_SIZE
    ensures fresh(result)
    ensures result[..] == AddBBoxSpec(lw[..], box)
  {
    if HasBBox(lw[0]) || box.None? {
      result := CopyOf(lw);
      return;
    }
    var old_type := lw[0];
    var size := lw.Length + BOX_SIZE;
    result := new bv8[size];
    result[0] := WithBBox(old_type, true);
    var b := box.value;
    var i := 0;
    while i < BOX_SIZE
      invariant 0 <= i <= BOX_SIZE
      invariant result[0] == WithBBox(old_type, true)
      invariant result[1..1 + i] == b[..i]
    {
      result[1 + i] := b[i];
      i := i + 1;
    }
    var j := 1;
    while j < lw.Length
      invariant 1 <= j <= lw.Length
      invariant result[0] == WithBBox(old_type, true)
      invariant result[1..1 + BOX_SIZE] == b
      invariant result[1 + BOX_SIZE..j + BOX_SIZE] == lw[1..j]
    {
      result[j + BOX_SIZE] := lw[j];
      j := j + 1;
    }
    assert result.Length == j + BOX_SIZE;
    assert result[1 + BOX_SIZE..] == result[1 + BOX_SIZE..j + BOX_SIZE];
    assert lw[1..] == lw[1..j];
    assert AddBBoxSpec(lw[..], box) == [WithBBox(old_type, true)] + b + lw[1..];
    assert result[..] == [result[0]] + result[1..1 + BOX_SIZE] + result[1 + BOX_SIZE..];
  }

  /** LWGEOM_dropBBOX. */
  method DropBBox(lw: array<bv8>) returns (result: array<bv8>)
    requires lw.Length >= 1
    requires HasBBox(lw[0]) ==> lw.Length >= 1 + BOX_SIZE
    ensures fresh(result)
    ensures result[..] == DropBBoxSpec(lw[..])
  {
    if !HasBBox(lw[0]) {
      result := CopyOf(lw);
      return;
    }
    var old_type := lw[0];
    var size := lw.Length - BOX_SIZE;
    result := new bv8[size];
    result[0] := WithBBox(old_type, false);
    var j := 1;
    while j < size
      invariant 1 <= j <= size
      invariant result[0] == WithBBox(old_type, false)
      invariant result[1..j] == lw[1 + BOX_SIZE..j + BOX_SIZE]
    {
      result[j] := lw[j + BOX_SIZE];
      j := j + 1;
    }
    assert result[1..] == result[1..j];
    assert lw[1 + BOX_SIZE..] == lw[1 + BOX_SIZE..j + BOX_SIZE];
    assert DropBBoxSpec(lw[..]) == [WithBBox(old_type, false)] + lw[1 + BOX_SIZE..];
    assert result[..] == [result[0]] + result[1..];
  }

  /** The palloc + memcpy copy both functions return on their first paths. */
  method CopyOf(lw: array<bv8>) returns (result: array<bv8>)
    ensures fresh(result) && result[..] == lw[..]
  {
    result := new bv8[lw.Length];
    var i := 0;
    while i < lw.Length
      invariant 0 <= i <= lw.Length
      invariant result[..i] == lw[..i]
    {
      result[i] := lw[i];
      i := i + 1;
    }
  }

  /** is_worth_caching_pglwgeom_bbox, is_worth_caching_serialized_bbox and
      is_worth_caching_lwgeom_bbox all test the type of the same type byte. */
  predicate IsWorthCaching(t: bv8) {
    AUTOCACHE_BBOX && GeomType(t) != POINTTYPE
  }

  lemma WorthCachingExactlyNonPoints(t: bv8)
    ensures IsWorthCaching(t) <==> GeomType(t) != POINTTYPE
  {
  }

  /** The tail of LWGEOMFromWKB: a box is cached when the type is worth it. */
  function CacheIfWorthIt(s: seq<bv8>, box: Option<seq<bv8>>): seq<bv8>
    requires |s| >= 1
  {
    if IsWorthCaching(s[0]) then AddBBoxSpec(s, box) else s
  }

  /** After LWGEOMFromWKB a form without a box gains one exactly when it is
      not a point and its box can be computed. */
  lemma CacheIfWorthItHasBox(s: seq<bv8>, box: Option<seq<bv8>>)
    requires |s| >= 1 && !HasBBox(s[0]) && (box.Some? ==> |box.value| == BOX_SIZE)
    ensures var r := CacheIfWorthIt(s, box);
      |r| >= 1 && (HasBBox(r[0]) <==> GeomType(s[0]) != POINTTYPE && box.Some?)
  {
    AddBBoxLayout(s, box);
  }

  // ---------------------------------------------------------------------
  // The byte-order argument of LWGEOM_asHEXEWKB and WKBFromLWGEOM

  /** XDR and NDR, or the unsigned -1 kept when no argument is given. */
  datatype ByteOrder = Xdr | Ndr | Unset

  /** "xdr" and "XDR" as the bytes strncmp compares. */
  const XDR_LOWER: seq<bv8> := [0x78, 0x64, 0x72]
  const XDR_UPPER: seq<bv8> := [0x58, 0x44, 0x52]

  /** `arg` is the payload of the optional text argument, as bytes (its
      VARSIZE less the 4-byte header); None when it is missing or SQL NULL.
      A payload under 3 bytes is refused; otherwise strncmp compares its
      first 3 bytes with both spellings. */
  function ByteOrderOf(arg: Option<seq<bv8>>): (r: Result<ByteOrder>)
    ensures arg.None? ==> r == Ok(Unset)
    ensures arg.Some? && |arg.value| < 3 <==> r.Err?
    ensures r == Ok(Xdr) <==> arg.Some? && |arg.value| >= 3 && (arg.value[..3] == XDR_LOWER || arg.value[..3] == XDR_UPPER)
    ensures r.Ok? && r.value != Xdr ==> r.value == if arg.None? then Unset else Ndr
  {
    if arg.None? then Ok(Unset)
    else if |arg.value| < 3 then Err("type should be 'XDR' or 'NDR'")
    else if arg.value[..3] == XDR_LOWER || arg.value[..3] == XDR_UPPER then Ok(Xdr)
    else Ok(Ndr)
  }

  /** Only the all-lower and all-upper spellings select XDR; the length
      test counts bytes, so a two-character text of three UTF-8 bytes such
      as "é1" passes it and selects NDR. */
  lemma MixedCaseIsNdr()
    ensures ByteOrderOf(Some([0x58, 0x64, 0x72])) == Ok(Ndr)
    ensures ByteOrderOf(Some([0x78, 0x64, 0x72, 0x66, 0x6f, 0x6f])) == Ok(Xdr)
    ensures ByteOrderOf(Some([0x4e, 0x44])).Err?
    ensures ByteOrderOf(Some([0xc3, 0xa9, 0x31])) == Ok(Ndr)
  {
    assert [0x78, 0x64, 0x72, 0x66, 0x6f, 0x6f][..3] == XDR_LOWER;
    var mixed: seq<bv8> := [0x58, 0x64, 0x72];
    assert mixed[..3] == mixed && mixed[1] != XDR_UPPER[1];
    var accented: seq<bv8> := [0xc3, 0xa9, 0x31];
    assert accented[..3] == accented;
  }
}
