/** The GIDX index key of the geography GiST opclass: a box with one
    (min, max) pair per dimension, stored as c[2*d] and c[2*d+1]. Boxes of
    different dimensionality are compared by treating a missing dimension as
    the single value 0. */
module Gidx {
  import opened Wrappers

  /** The messages the error paths raise. */
  const UNION_TWO_NULLS := "gidx_union_volume received two null arguments"
  const INTER_NULL := "gidx_inter_volume received a null argument"

  /** The coordinate array c[] of a GIDX. Its length is always even, because
      GIDX_NDIMS is derived from the varlena size as pairs of floats. */
  type Box = c: seq<real> | |c| % 2 == 0

  function NDims(b: Box): nat { |b| / 2 }

  function Lo(b: Box, d: nat): real
    requires d < NDims(b)
  {
    b[2 * d]
  }

  function Hi(b: Box, d: nat): real
    requires d < NDims(b)
  {
    b[2 * d + 1]
  }

  /** PostgreSQL's Min and Max macros. */
  function Min(x: real, y: real): real { if x < y then x else y }
  function Max(x: real, y: real): real { if x > y then x else y }

  /** Every dimension of b has min <= max. */
  predicate Valid(b: Box) {
    forall d :: 0 <= d < NDims(b) ==> Lo(b, d) <= Hi(b, d)
  }

  // ---------------------------------------------------------------------
  // gidx_validate

  /** The box gidx_validate leaves behind: a dimension whose min exceeds its
      max has its two values exchanged; every other value stays. */
  function Validated(b: Box): (r: Box)
    ensures |r| == |b|
  {
    seq(|b|, k requires 0 <= k < |b| =>
      if b[k - k % 2] > b[k - k % 2 + 1] then
        (if k % 2 == 0 then b[k + 1] else b[k - 1])
      else b[k])
  }

  /** After validation every dimension has min <= max, and each pair is the
      original pair, possibly swapped. Validation is idempotent. */
  lemma ValidatedProperties(b: Box)
    ensures NDims(Validated(b)) == NDims(b)
    ensures Valid(Validated(b))
    ensures forall d :: 0 <= d < NDims(b) ==>
      (Lo(Validated(b), d) == Lo(b, d) && Hi(Validated(b), d) == Hi(b, d))
      || (Lo(Validated(b), d) == Hi(b, d) && Hi(Validated(b), d) == Lo(b, d))
    ensures Valid(b) ==> Validated(b) == b
    ensures Validated(Validated(b)) == Validated(b)
  {
    var r := Validated(b);
    forall d | 0 <= d < NDims(b)
      ensures Lo(r, d) == (if Lo(b, d) > Hi(b, d) then Hi(b, d) else Lo(b, d))
      ensures Hi(r, d) == (if Lo(b, d) > Hi(b, d) then Lo(b, d) else Hi(b, d))
    {
      assert (2 * d) % 2 == 0 && (2 * d + 1) % 2 == 1;
    }
    if Valid(b) {
      forall d | 0 <= d < NDims(b)
        ensures b[2 * d] <= b[2 * d + 1]
      {
        assert Lo(b, d) <= Hi(b, d);
      }
      ValidatedIs(b, b);
    }
    assert Valid(r);
    forall d | 0 <= d < NDims(r)
      ensures r[2 * d] <= r[2 * d + 1]
    {
      assert Lo(r, d) <= Hi(r, d);
    }
    ValidatedIs(r, r);
  }

  /** gidx_validate: swaps, in place, the min and max of every dimension
      whose min is larger. */
  method Validate(b: array<real>)
    requires b.Length % 2 == 0
    modifies b
    ensures b[..] == Validated(old(b[..]))
  {
    ghost var b0: Box := b[..];
    var i := 0;
    while i < b.Length / 2
      invariant 0 <= i <= b.Length / 2
      invariant forall d :: 0 <= d < i ==> b[2 * d] == Min(b0[2 * d], b0[2 * d + 1]) && b[2 * d + 1] == Max(b0[2 * d], b0[2 * d + 1])
      invariant forall k :: 2 * i <= k < b.Length ==> b[k] == b0[k]
    {
      if b[2 * i] > b[2 * i + 1] {
        var tmp := b[2 * i];
        b[2 * i] := b[2 * i + 1];
        b[2 * i + 1] := tmp;
      }
      i := i + 1;
    }
    ValidatedIs(b0, b[..]);
  }

  /** A box whose every pair is the min and max of the original pair is the
      validated box. */
  lemma ValidatedIs(b: Box, s: seq<real>)
    requires |s| == |b|
    requires forall d :: 0 <= d < NDims(b) ==> s[2 * d] == Min(b[2 * d], b[2 * d + 1]) && s[2 * d + 1] == Max(b[2 * d], b[2 * d + 1])
    ensures s == Validated(b)
  {
    forall k | 0 <= k < |s|
      ensures s[k] == Validated(b)[k]
    {
      var d := k / 2;
      if k % 2 == 0 {
        assert k == 2 * d && k - k % 2 == 2 * d;
      } else {
        assert k == 2 * d + 1 && k - k % 2 == 2 * d;
      }
    }
  }

  // ---------------------------------------------------------------------
  // gidx_merge

  /** The union box gidx_merge computes when b_new has no more dimensions
      than the union: on b_new's dimensions the smaller min and the larger
      max; the union's further dimensions stay as they were. */
  function Merged(u: Box, n: Box): (r: Box)
    requires NDims(n) <= NDims(u)
    ensures |r| == |u|
  {
    seq(|u|, k requires 0 <= k < |u| =>
      if k < |n| then (if k % 2 == 0 then Min(u[k], n[k]) else Max(u[k], n[k]))
      else u[k])
  }

  lemma MergedProperties(u: Box, n: Box)
    requires NDims(n) <= NDims(u)
    ensures NDims(Merged(u, n)) == NDims(u)
    ensures forall d :: 0 <= d < NDims(n) ==>
      Lo(Merged(u, n), d) == Min(Lo(u, d), Lo(n, d)) && Hi(Merged(u, n), d) == Max(Hi(u, d), Hi(n, d))
    ensures forall d :: NDims(n) <= d < NDims(u) ==>
      Lo(Merged(u, n), d) == Lo(u, d) && Hi(Merged(u, n), d) == Hi(u, d)
    ensures Contain(Merged(u, n), n) && Contain(Merged(u, n), u)
    ensures Valid(u) ==> Valid(Merged(u, n))
  {
    var r := Merged(u, n);
    forall d | 0 <= d < NDims(u)
      ensures d < NDims(n) ==> Lo(r, d) == Min(Lo(u, d), Lo(n, d)) && Hi(r, d) == Max(Hi(u, d), Hi(n, d))
      ensures d >= NDims(n) ==> Lo(r, d) == Lo(u, d) && Hi(r, d) == Hi(u, d)
    {
      assert (2 * d) % 2 == 0 && (2 * d + 1) % 2 == 1;
    }
  }

  /** Merging a box into itself changes nothing. */
  lemma MergedSelf(u: Box)
    ensures Merged(u, u) == u
  {
  }

  /** gidx_merge, for a b_new with no more dimensions than the union. */
  method Merge(u: array<real>, n: Box)
    requires u.Length % 2 == 0 && NDims(n) <= u.Length / 2
    modifies u
    ensures u[..] == Merged(old(u[..]), n)
  {
    ghost var u0: Box := u[..];
    var i := 0;
    while i < NDims(n)
      invariant 0 <= i <= NDims(n)
      invariant forall k :: 0 <= k < 2 * i ==> u[k] == Merged(u0, n)[k]
      invariant forall k :: 2 * i <= k < u.Length ==> u[k] == u0[k]
    {
      assert (2 * i) % 2 == 0 && (2 * i + 1) % 2 == 1;
      u[2 * i] := Min(u[2 * i], Lo(n, i));
      u[2 * i + 1] := Max(u[2 * i + 1], Hi(n, i));
      i := i + 1;
    }
  }

  /** The union of boxes[0..], merged left to right as geography_gist_union
      does: a copy of the first box, then each later box merged into it. */
  function UnionAll(boxes: seq<Box>): Box
    requires |boxes| >= 1
    requires forall i :: 0 <= i < |boxes| ==> NDims(boxes[i]) <= NDims(boxes[0])
    ensures |UnionAll(boxes)| == |boxes[0]|
  {
    if |boxes| == 1 then boxes[0]
    else Merged(UnionAll(boxes[..|boxes| - 1]), boxes[|boxes| - 1])
  }

  /** The union contains every box it was built from. */
  lemma {:induction false} UnionAllContains(boxes: seq<Box>)
    requires |boxes| >= 1
    requires forall i :: 0 <= i < |boxes| ==> NDims(boxes[i]) <= NDims(boxes[0])
    requires forall i :: 0 <= i < |boxes| ==> Valid(boxes[i])
    ensures Valid(UnionAll(boxes))
    ensures forall i :: 0 <= i < |boxes| ==> Contain(UnionAll(boxes), boxes[i])
  {
    if |boxes| > 1 {
      var front := boxes[..|boxes| - 1];
      var last := boxes[|boxes| - 1];
      assert forall i :: 0 <= i < |front| ==> front[i] == boxes[i];
      UnionAllContains(front);
      var uf := UnionAll(front);
      var u := Merged(uf, last);
      assert UnionAll(boxes) == u;
      MergedContains(uf, last);
      forall i | 0 <= i < |front|
        ensures Contain(u, boxes[i])
      {
        ContainTransitive(u, uf, front[i]);
      }
    }
  }

  /** The merge contains both its arguments and keeps a valid union valid. */
  lemma MergedContains(u: Box, n: Box)
    requires NDims(n) <= NDims(u)
    ensures NDims(Merged(u, n)) == NDims(u)
    ensures Contain(Merged(u, n), n) && Contain(Merged(u, n), u)
    ensures Valid(u) ==> Valid(Merged(u, n))
  {
    MergedProperties(u, n);
  }

  /** geography_gist_union: copies the first key and merges the rest into it. */
  method GistUnion(boxes: seq<Box>) returns (u: array<real>)
    requires |boxes| >= 1
    requires forall i :: 0 <= i < |boxes| ==> NDims(boxes[i]) <= NDims(boxes[0])
    ensures fresh(u)
    ensures u[..] == UnionAll(boxes)
  {
    u := new real[|boxes[0]|](k requires 0 <= k < |boxes[0]| => boxes[0][k]);
    assert u[..] == UnionAll(boxes[..1]);
    var i := 1;
    while i < |boxes|
      invariant 1 <= i <= |boxes|
      invariant u.Length == |boxes[0]|
      invariant u[..] == UnionAll(boxes[..i])
    {
      UnionAllSnoc(boxes, i);
      Merge(u, boxes[i]);
      i := i + 1;
    }
    assert boxes[..|boxes|] == boxes;
  }

  /** The union of one more box is the merge of the union so far with it. */
  lemma UnionAllSnoc(boxes: seq<Box>, i: nat)
    requires 1 <= i < |boxes|
    requires forall j :: 0 <= j < |boxes| ==> NDims(boxes[j]) <= NDims(boxes[0])
    ensures UnionAll(boxes[..i + 1]) == Merged(UnionAll(boxes[..i]), boxes[i])
  {
    assert boxes[..i + 1][..i] == boxes[..i];
  }

  // ---------------------------------------------------------------------
  // gidx_overlaps, gidx_contains, gidx_equals

  /** The overlap relation of gidx_overlaps: the closed intervals meet on
      every shared dimension, and every dimension only one box has contains
      0. */
  predicate Overlap(a: Box, b: Box) {
    (forall d :: 0 <= d < NDims(a) && d < NDims(b) ==> Lo(a, d) <= Hi(b, d) && Lo(b, d) <= Hi(a, d))
    && (forall d :: NDims(b) <= d < NDims(a) ==> Lo(a, d) <= 0.0 <= Hi(a, d))
    && (forall d :: NDims(a) <= d < NDims(b) ==> Lo(b, d) <= 0.0 <= Hi(b, d))
  }

  /** The containment relation of gidx_contains: a's interval contains b's on
      the shared dimensions; dimensions only b has must be exactly [0, 0];
      dimensions only a has are ignored. */
  predicate Contain(a: Box, b: Box) {
    (forall d :: NDims(a) <= d < NDims(b) ==> Lo(b, d) == 0.0 && Hi(b, d) == 0.0)
    && (forall d :: 0 <= d < NDims(a) && d < NDims(b) ==> Lo(a, d) <= Lo(b, d) && Hi(b, d) <= Hi(a, d))
  }

  /** The equality relation of gidx_equals: the shared dimensions agree and
      the dimensions only one box has are exactly [0, 0]. */
  predicate Equal(a: Box, b: Box) {
    (forall d :: 0 <= d < NDims(a) && d < NDims(b) ==> Lo(a, d) == Lo(b, d) && Hi(a, d) == Hi(b, d))
    && (forall d :: NDims(b) <= d < NDims(a) ==> Lo(a, d) == 0.0 && Hi(a, d) == 0.0)
    && (forall d :: NDims(a) <= d < NDims(b) ==> Lo(b, d) == 0.0 && Hi(b, d) == 0.0)
  }

  /** The three relations lifted to possibly-NULL GIDX pointers. */
  predicate OverlapOpt(a: Option<Box>, b: Option<Box>) {
    a.Some? && b.Some? && Overlap(a.value, b.value)
  }

  predicate ContainOpt(a: Option<Box>, b: Option<Box>) {
    a.Some? && b.Some? && Contain(a.value, b.value)
  }

  predicate EqualOpt(a: Option<Box>, b: Option<Box>) {
    (a.None? && b.None?) || (a.Some? && b.Some? && Equal(a.value, b.value))
  }

  /** gidx_overlaps: a NULL argument gives false. The argument with more
      dimensions is swapped into a, then two early-exit loops run. */
  method GidxOverlaps(a0: Option<Box>, b0: Option<Box>) returns (r: bool)
    ensures r <==> OverlapOpt(a0, b0)
    ensures r <==> OverlapOpt(b0, a0)
  {
    if a0.None? || b0.None? {
      return false;
    }
    var a, b := a0.value, b0.value;
    if NDims(a) < NDims(b) {
      a, b := b, a;
    }
    assert Overlap(a, b) <==> Overlap(a0.value, b0.value);
    var i := 0;
    while i < NDims(b)
      invariant 0 <= i <= NDims(b) <= NDims(a)
      invariant forall d :: 0 <= d < i ==> Lo(a, d) <= Hi(b, d) && Lo(b, d) <= Hi(a, d)
    {
      if Lo(a, i) > Hi(b, i) {
        return false;
      }
      if Lo(b, i) > Hi(a, i) {
        return false;
      }
      i := i + 1;
    }
    while i < NDims(a)
      invariant NDims(b) <= i <= NDims(a)
      invariant forall d :: NDims(b) <= d < i ==> Lo(a, d) <= 0.0 <= Hi(a, d)
    {
      if Lo(a, i) > 0.0 {
        return false;
      }
      if Hi(a, i) < 0.0 {
        return false;
      }
      i := i + 1;
    }
    return true;
  }

  /** gidx_contains: a NULL argument gives false. When b has more dimensions,
      its extra dimensions are checked first; then the shared ones. */
  method GidxContains(a0: Option<Box>, b0: Option<Box>) returns (r: bool)
    ensures r <==> ContainOpt(a0, b0)
  {
    if a0.None? || b0.None? {
      return false;
    }
    var a, b := a0.value, b0.value;
    var i;
    if NDims(a) < NDims(b) {
      i := NDims(a);
      while i < NDims(b)
        invariant NDims(a) <= i <= NDims(b)
        invariant forall d :: NDims(a) <= d < i ==> Lo(b, d) == 0.0 && Hi(b, d) == 0.0
      {
        if Lo(b, i) != 0.0 {
          return false;
        }
        if Hi(b, i) != 0.0 {
          return false;
        }
        i := i + 1;
      }
    }
    var m := if NDims(a) < NDims(b) then NDims(a) else NDims(b);
    i := 0;
    while i < m
      invariant 0 <= i <= m
      invariant forall d :: 0 <= d < i ==> Lo(a, d) <= Lo(b, d) && Hi(b, d) <= Hi(a, d)
    {
      if Lo(a, i) > Lo(b, i) {
        return false;
      }
      if Hi(a, i) < Hi(b, i) {
        return false;
      }
      i := i + 1;
    }
    return true;
  }

  /** gidx_equals: two NULLs are equal, one NULL is not. The argument with
      more dimensions is swapped into a. */
  method GidxEquals(a0: Option<Box>, b0: Option<Box>) returns (r: bool)
    ensures r <==> EqualOpt(a0, b0)
    ensures r <==> EqualOpt(b0, a0)
  {
    if a0.None? && b0.None? {
      return true;
    }
    if a0.None? || b0.None? {
      return false;
    }
    var a, b := a0.value, b0.value;
    if NDims(a) < NDims(b) {
      a, b := b, a;
    }
    assert Equal(a, b) <==> Equal(a0.value, b0.value);
    var i := 0;
    while i < NDims(b)
      invariant 0 <= i <= NDims(b) <= NDims(a)
      invariant forall d :: 0 <= d < i ==> Lo(a, d) == Lo(b, d) && Hi(a, d) == Hi(b, d)
    {
      if Lo(a, i) != Lo(b, i) {
        return false;
      }
      if Hi(a, i) != Hi(b, i) {
        return false;
      }
      i := i + 1;
    }
    while i < NDims(a)
      invariant NDims(b) <= i <= NDims(a)
      invariant forall d :: NDims(b) <= d < i ==> Lo(a, d) == 0.0 && Hi(a, d) == 0.0
    {
      if Lo(a, i) != 0.0 {
        return false;
      }
      if Hi(a, i) != 0.0 {
        return false;
      }
      i := i + 1;
    }
    return true;
  }

  /** Equality is containment both ways. */
  lemma EqualIsMutualContain(a: Box, b: Box)
    ensures Equal(a, b) <==> Contain(a, b) && Contain(b, a)
  {
    if Contain(a, b) && Contain(b, a) {
      forall d | 0 <= d < NDims(a) && d < NDims(b)
        ensures Lo(a, d) == Lo(b, d) && Hi(a, d) == Hi(b, d)
      {
      }
    }
  }

  /** For boxes of the same dimensionality, Equal is plain equality. */
  lemma EqualSameDims(a: Box, b: Box)
    requires |a| == |b|
    ensures Equal(a, b) <==> a == b
  {
    if Equal(a, b) {
      forall k | 0 <= k < |a| ensures a[k] == b[k] {
        var d := k / 2;
        assert d < NDims(a);
        if k % 2 == 0 {
          assert k == 2 * d;
          assert a[k] == Lo(a, d) && b[k] == Lo(b, d);
        } else {
          assert k == 2 * d + 1;
          assert a[k] == Hi(a, d) && b[k] == Hi(b, d);
        }
      }
    }
  }

  /** Containment is transitive when the middle box has at least the
      dimensions of the outer one and the inner box is valid. */
  lemma ContainTransitive(a: Box, b: Box, c: Box)
    requires NDims(a) <= NDims(b) && Valid(c)
    requires Contain(a, b) && Contain(b, c)
    ensures Contain(a, c)
  {
    forall d | NDims(a) <= d < NDims(c)
      ensures Lo(c, d) == 0.0 && Hi(c, d) == 0.0
    {
      if d < NDims(b) {
        assert Lo(b, d) == 0.0 && Hi(b, d) == 0.0;
        assert Lo(b, d) <= Lo(c, d) <= Hi(c, d) <= Hi(b, d);
      }
    }
  }

  /** A box contains a valid box of the same dimensionality only if they
      overlap. */
  lemma ContainImpliesOverlap(a: Box, b: Box)
    requires NDims(a) == NDims(b) && Valid(b)
    requires Contain(a, b)
    ensures Overlap(a, b)
  {
    forall d | 0 <= d < NDims(a)
      ensures Lo(a, d) <= Hi(b, d) && Lo(b, d) <= Hi(a, d)
    {
      assert Lo(a, d) <= Lo(b, d) <= Hi(b, d) <= Hi(a, d);
    }
  }

  // ---------------------------------------------------------------------
  // Volumes

  /** The product of the first n factors, multiplied left to right. */
  function Prod(xs: seq<real>, n: nat): real
    requires n <= |xs|
  {
    if n == 0 then 1.0 else Prod(xs, n - 1) * xs[n - 1]
  }

  function Product(xs: seq<real>): real { Prod(xs, |xs|) }

  /** One more factor of a running product. */
  lemma ProdStep(xs: seq<real>, n: nat, v: real, w: real)
    requires n < |xs| && v == Prod(xs, n) && w == xs[n]
    ensures v * w == Prod(xs, n + 1)
  {
  }

  function Width(b: Box, d: nat): real
    requires d < NDims(b)
  {
    Hi(b, d) - Lo(b, d)
  }

  /** The factors gidx_volume multiplies: the width of every dimension. */
  function VolumeFactors(b: Box): seq<real> {
    seq(NDims(b), d requires 0 <= d < NDims(b) => Width(b, d))
  }

  /** The volume of gidx_volume; a NULL box has volume 0. */
  function Volume(b: Option<Box>): real {
    if b.None? then 0.0 else Product(VolumeFactors(b.value))
  }

  /** The factors gidx_union_volume multiplies, with a the box of more
      dimensions: union widths on b's dimensions, then a's own widths. */
  function UnionFactors(a: Box, b: Box): seq<real>
    requires NDims(b) <= NDims(a)
  {
    seq(NDims(a), d requires 0 <= d < NDims(a) => UnionFactor(a, b, d))
  }

  function UnionFactor(a: Box, b: Box, d: nat): real
    requires NDims(b) <= NDims(a) && d < NDims(a)
  {
    if d < NDims(b) then Max(Hi(a, d), Hi(b, d)) - Min(Lo(a, d), Lo(b, d))
    else Width(a, d)
  }

  /** The factors gidx_inter_volume multiplies over b's dimensions, with a
      the box of more dimensions. */
  function InterFactors(a: Box, b: Box): seq<real>
    requires NDims(b) <= NDims(a)
  {
    seq(NDims(b), d requires 0 <= d < NDims(b) =>
      Min(Hi(a, d), Hi(b, d)) - Max(Lo(a, d), Lo(b, d)))
  }

  /** gidx_union_volume: both NULL is an error, one NULL gives the other's
      volume; otherwise the larger box goes first. */
  function UnionVolume(a: Option<Box>, b: Option<Box>): Result<real> {
    if a.None? && b.None? then Err(UNION_TWO_NULLS)
    else if a.None? then Ok(Volume(b))
    else if b.None? then Ok(Volume(a))
    else if NDims(a.value) < NDims(b.value) then Ok(Product(UnionFactors(b.value, a.value)))
    else Ok(Product(UnionFactors(a.value, b.value)))
  }

  /** gidx_inter_volume: a NULL argument is an error; a negative overlap
      width on any shared dimension gives 0, otherwise the product of the
      overlap widths. */
  function InterVolume(a: Option<Box>, b: Option<Box>): Result<real> {
    if a.None? || b.None? then Err(INTER_NULL)
    else if NDims(a.value) < NDims(b.value) then Ok(InterOrdered(b.value, a.value))
    else Ok(InterOrdered(a.value, b.value))
  }

  /** The intersection volume once a is the box with more dimensions. */
  function InterOrdered(a: Box, b: Box): real
    requires NDims(b) <= NDims(a)
  {
    var f := InterFactors(a, b);
    if exists d :: 0 <= d < |f| && f[d] < 0.0 then 0.0 else Product(f)
  }

  lemma {:induction false} ProdNonneg(xs: seq<real>, n: nat)
    requires n <= |xs|
    requires forall k :: 0 <= k < |xs| ==> 0.0 <= xs[k]
    ensures 0.0 <= Prod(xs, n)
  {
    if n > 0 {
      ProdNonneg(xs, n - 1);
    }
  }

  /** The product is monotone in factors that are not negative. */
  lemma {:induction false} ProdMonotone(xs: seq<real>, ys: seq<real>, n: nat)
    requires n <= |xs| == |ys|
    requires forall k :: 0 <= k < |xs| ==> 0.0 <= xs[k] <= ys[k]
    ensures 0.0 <= Prod(xs, n) <= Prod(ys, n)
  {
    if n > 0 {
      ProdMonotone(xs, ys, n - 1);
      var p, q, x, y := Prod(xs, n - 1), Prod(ys, n - 1), xs[n - 1], ys[n - 1];
      assert 0.0 <= p * x <= q * x by {
        assert 0.0 <= (q - p) * x;
      }
      assert q * x <= q * y by {
        assert 0.0 <= q * (y - x);
      }
    }
  }

  /** gidx_volume: NULL has volume 0; otherwise the width of the first
      dimension times the widths of the others. The first dimension is read
      unconditionally, so a box needs one. */
  method GidxVolume(a: Option<Box>) returns (r: real)
    requires a.Some? ==> NDims(a.value) >= 1
    ensures r == Volume(a)
  {
    if a.None? {
      return 0.0;
    }
    var b := a.value;
    ghost var f := VolumeFactors(b);
    r := Hi(b, 0) - Lo(b, 0);
    var i := 1;
    while i < NDims(b)
      invariant 1 <= i <= NDims(b)
      invariant r == Prod(f, i)
    {
      r := r * (Hi(b, i) - Lo(b, i));
      i := i + 1;
    }
  }

  /** gidx_union_volume. Both boxes must have a first dimension. */
  method GidxUnionVolume(a0: Option<Box>, b0: Option<Box>) returns (r: Result<real>)
    requires a0.Some? ==> NDims(a0.value) >= 1
    requires b0.Some? ==> NDims(b0.value) >= 1
    ensures r == UnionVolume(a0, b0)
  {
    if a0.None? && b0.None? {
      return Err(UNION_TWO_NULLS);
    }
    if a0.None? {
      var v := GidxVolume(b0);
      return Ok(v);
    }
    if b0.None? {
      var v := GidxVolume(a0);
      return Ok(v);
    }
    var v;
    if NDims(a0.value) < NDims(b0.value) {
      v := UnionVolumeOrdered(b0.value, a0.value);
    } else {
      v := UnionVolumeOrdered(a0.value, b0.value);
    }
    return Ok(v);
  }

  /** The loops of gidx_union_volume after gidx_dimensionality_check has put
      the box with more dimensions in a: first the union widths of the
      shared dimensions. */
  method UnionVolumeOrdered(a: Box, b: Box) returns (v: real)
    requires 1 <= NDims(b) <= NDims(a)
    ensures v == Product(UnionFactors(a, b))
  {
    ghost var f := UnionFactors(a, b);
    v := Max(Hi(a, 0), Hi(b, 0)) - Min(Lo(a, 0), Lo(b, 0));
    assert v == f[0];
    var i := 1;
    while i < NDims(b)
      invariant 1 <= i <= NDims(b)
      invariant v == Prod(f, i)
    {
      var w := Max(Hi(a, i), Hi(b, i)) - Min(Lo(a, i), Lo(b, i));
      assert w == f[i] by {
        assert f[i] == UnionFactor(a, b, i);
      }
      ProdStep(f, i, v, w);
      v := v * w;
      i := i + 1;
    }
    v := UnionVolumeExtra(a, b, v);
  }

  /** The last loop of gidx_union_volume: the widths of the dimensions only
      a has. */
  method UnionVolumeExtra(a: Box, b: Box, v0: real) returns (v: real)
    requires NDims(b) <= NDims(a)
    requires v0 == Prod(UnionFactors(a, b), NDims(b))
    ensures v == Product(UnionFactors(a, b))
  {
    ghost var f := UnionFactors(a, b);
    v := v0;
    var i := NDims(b);
    while i < NDims(a)
      invariant NDims(b) <= i <= NDims(a)
      invariant v == Prod(f, i)
    {
      var w := Hi(a, i) - Lo(a, i);
      assert w == f[i] by {
        assert f[i] == UnionFactor(a, b, i);
      }
      ProdStep(f, i, v, w);
      v := v * w;
      i := i + 1;
    }
  }

  /** gidx_inter_volume. Both boxes must have a first dimension. */
  method GidxInterVolume(a0: Option<Box>, b0: Option<Box>) returns (r: Result<real>)
    requires a0.Some? ==> NDims(a0.value) >= 1
    requires b0.Some? ==> NDims(b0.value) >= 1
    ensures r == InterVolume(a0, b0)
  {
    if a0.None? || b0.None? {
      return Err(INTER_NULL);
    }
    var v;
    if NDims(a0.value) < NDims(b0.value) {
      v := InterVolumeOrdered(b0.value, a0.value);
    } else {
      v := InterVolumeOrdered(a0.value, b0.value);
    }
    return Ok(v);
  }

  /** The early-exit loop of gidx_inter_volume after the swap. */
  method InterVolumeOrdered(a: Box, b: Box) returns (v: real)
    requires 1 <= NDims(b) <= NDims(a)
    ensures v == InterOrdered(a, b)
  {
    ghost var f := InterFactors(a, b);
    v := Min(Hi(a, 0), Hi(b, 0)) - Max(Lo(a, 0), Lo(b, 0));
    if v < 0.0 {
      assert f[0] < 0.0;
      return 0.0;
    }
    var i := 1;
    while i < NDims(b)
      invariant 1 <= i <= NDims(b)
      invariant v == Prod(f, i)
      invariant forall d :: 0 <= d < i ==> 0.0 <= f[d]
    {
      var width := Min(Hi(a, i), Hi(b, i)) - Max(Lo(a, i), Lo(b, i));
      if width < 0.0 {
        assert f[i] < 0.0;
        return 0.0;
      }
      v := v * width;
      i := i + 1;
    }
  }

  /** A valid box has a volume that is not negative. */
  lemma VolumeNonneg(b: Box)
    requires Valid(b)
    ensures 0.0 <= Volume(Some(b))
  {
    ProdNonneg(VolumeFactors(b), NDims(b));
  }

  /** The intersection volume of two valid boxes lies between 0 and the
      volume of the box with fewer dimensions. */
  lemma InterVolumeBounds(a: Box, b: Box)
    requires NDims(b) <= NDims(a) && Valid(a) && Valid(b)
    ensures InterVolume(Some(a), Some(b)).Ok?
    ensures 0.0 <= InterVolume(Some(a), Some(b)).value <= Volume(Some(b))
  {
    VolumeNonneg(b);
    var f := InterFactors(a, b);
    if !(exists d :: 0 <= d < |f| && f[d] < 0.0) {
      var g := VolumeFactors(b);
      assert forall k :: 0 <= k < |f| ==> 0.0 <= f[k] <= g[k];
      ProdMonotone(f, g, |f|);
    }
  }

  /** The union volume of two valid boxes is at least the volume of the box
      with more dimensions. */
  lemma UnionVolumeAtLeast(a: Box, b: Box)
    requires NDims(b) <= NDims(a) && Valid(a) && Valid(b)
    ensures UnionVolume(Some(a), Some(b)).Ok?
    ensures Volume(Some(a)) <= UnionVolume(Some(a), Some(b)).value
  {
    var g, f := VolumeFactors(a), UnionFactors(a, b);
    assert forall k :: 0 <= k < |g| ==> 0.0 <= g[k] <= f[k];
    ProdMonotone(g, f, |g|);
  }

  /** geography_gist_penalty: the growth in volume of the original key once
      the new key is merged into it; two NULL keys cost 0, a NULL new key
      costs nothing and a NULL original key costs the new key's volume. */
  function Penalty(orig: Option<Box>, add: Option<Box>): (r: real)
    ensures add.None? ==> r == 0.0
    ensures orig.None? && add.Some? ==> r == Volume(add)
  {
    if orig.None? && add.None? then 0.0
    else
      var u := UnionVolume(orig, add);
      (if u.Ok? then u.value else 0.0) - Volume(orig)
  }

  /** Adding a valid key of no more dimensions never costs a negative
      penalty. */
  lemma PenaltyNonneg(orig: Box, add: Box)
    requires NDims(add) <= NDims(orig) && Valid(orig) && Valid(add)
    ensures 0.0 <= Penalty(Some(orig), Some(add))
  {
    UnionVolumeAtLeast(orig, add);
  }

  /** A key that already contains the new one does not grow. */
  lemma PenaltyZeroWhenContained(orig: Box, add: Box)
    requires NDims(add) <= NDims(orig) && Contain(orig, add)
    ensures Penalty(Some(orig), Some(add)) == 0.0
  {
    assert UnionFactors(orig, add) == VolumeFactors(orig) by {
      forall d | 0 <= d < NDims(orig)
        ensures UnionFactors(orig, add)[d] == VolumeFactors(orig)[d]
      {
        assert UnionFactors(orig, add)[d] == UnionFactor(orig, add, d);
      }
    }
  }

  // ---------------------------------------------------------------------
  // Consistency

  // R-tree strategy numbers of PostgreSQL's GiST
  const RTOverlapStrategyNumber := 3
  const RTSameStrategyNumber := 6
  const RTContainsStrategyNumber := 7
  const RTContainedByStrategyNumber := 8
  const RTOldContainsStrategyNumber := 13
  const RTOldContainedByStrategyNumber := 14

  /** geography_gist_consistent_leaf: the exact test on a leaf key. */
  function ConsistentLeaf(key: Option<Box>, query: Option<Box>, strategy: int): (r: bool)
    ensures strategy !in {3, 6, 7, 8, 13, 14} ==> !r
    ensures strategy == RTOverlapStrategyNumber ==> (r <==> OverlapOpt(key, query))
    ensures strategy == RTSameStrategyNumber ==> (r <==> EqualOpt(key, query))
    ensures strategy in {7, 13} ==> (r <==> ContainOpt(key, query))
    ensures strategy in {8, 14} ==> (r <==> ContainOpt(query, key))
  {
    if strategy == RTOverlapStrategyNumber then OverlapOpt(key, query)
    else if strategy == RTSameStrategyNumber then EqualOpt(key, query)
    else if strategy == RTContainsStrategyNumber || strategy == RTOldContainsStrategyNumber then ContainOpt(key, query)
    else if strategy == RTContainedByStrategyNumber || strategy == RTOldContainedByStrategyNumber then ContainOpt(query, key)
    else false
  }

  /** geography_gist_consistent_internal: the test on an internal key, which
      covers the keys below it. */
  function ConsistentInternal(key: Option<Box>, query: Option<Box>, strategy: int): (r: bool)
    ensures strategy !in {3, 6, 7, 8, 13, 14} ==> !r
    ensures strategy in {3, 8, 14} ==> (r <==> OverlapOpt(key, query))
    ensures strategy in {6, 7, 13} ==> (r <==> ContainOpt(key, query))
  {
    if strategy == RTOverlapStrategyNumber then OverlapOpt(key, query)
    else if strategy == RTSameStrategyNumber || strategy == RTContainsStrategyNumber || strategy == RTOldContainsStrategyNumber then ContainOpt(key, query)
    else if strategy == RTContainedByStrategyNumber || strategy == RTOldContainedByStrategyNumber then OverlapOpt(key, query)
    else false
  }

  /** geography_gist_consistent: false when the key is NULL or the query has
      no box (a NULL query, or one geography_datum_gidx cannot box);
      otherwise the leaf or the internal test. */
  function Consistent(key: Option<Box>, query: Option<Box>, isLeaf: bool, strategy: int): (r: bool)
    ensures key.None? || query.None? ==> !r
    ensures key.Some? && query.Some? && isLeaf ==> r == ConsistentLeaf(key, query, strategy)
    ensures key.Some? && query.Some? && !isLeaf ==> r == ConsistentInternal(key, query, strategy)
  {
    if query.None? || key.None? then false
    else if isLeaf then ConsistentLeaf(key, query, strategy)
    else ConsistentInternal(key, query, strategy)
  }

  /** The internal test never prunes a subtree holding a matching leaf: when
      an internal key contains a valid leaf key of the same dimensionality,
      every query that matches the leaf also passes the internal key. */
  lemma InternalCoversLeaf(key: Box, leaf: Box, query: Box, strategy: int)
    requires NDims(key) == NDims(leaf) == NDims(query)
    requires Valid(leaf) && Contain(key, leaf)
    requires ConsistentLeaf(Some(leaf), Some(query), strategy)
    ensures ConsistentInternal(Some(key), Some(query), strategy)
  {
    if strategy == RTOverlapStrategyNumber {
      forall d | 0 <= d < NDims(key)
        ensures Lo(key, d) <= Hi(query, d) && Lo(query, d) <= Hi(key, d)
      {
        assert Lo(key, d) <= Lo(leaf, d) && Hi(leaf, d) <= Hi(key, d);
      }
    } else if strategy == RTSameStrategyNumber {
      EqualSameDims(leaf, query);
    } else if strategy == RTContainsStrategyNumber || strategy == RTOldContainsStrategyNumber {
      forall d | 0 <= d < NDims(key)
        ensures Lo(key, d) <= Lo(query, d) && Hi(query, d) <= Hi(key, d)
      {
        assert Lo(key, d) <= Lo(leaf, d) && Hi(leaf, d) <= Hi(key, d);
      }
    } else {
      forall d | 0 <= d < NDims(key)
        ensures Lo(key, d) <= Hi(query, d) && Lo(query, d) <= Hi(key, d)
      {
        assert Lo(key, d) <= Lo(leaf, d) <= Hi(leaf, d) <= Hi(key, d);
        assert Lo(query, d) <= Lo(leaf, d) <= Hi(leaf, d) <= Hi(query, d);
      }
    }
  }

  // ---------------------------------------------------------------------
  // gidx_insert_into_gserialized

  // GSERIALIZED flag bits
  const FLAG_Z: bv8 := 0x01
  const FLAG_M: bv8 := 0x02
  const FLAG_BBOX: bv8 := 0x04
  const FLAG_GEODETIC: bv8 := 0x08

  /** A GSERIALIZED: the 8-byte head (varlena size, 3 SRID bytes and the
      flags byte) followed by the data bytes. The size word is not kept: it
      is always 8 + |data|. */
  datatype Gser = Gser(srid: seq<bv8>, flags: bv8, data: seq<bv8>)

  /** The dimensionality of a serialized geometry's box: 3 for geodetic,
      otherwise 2 plus one each for Z and M. */
  function GserDims(flags: bv8): nat {
    if flags & FLAG_GEODETIC != 0 then 3
    else 2 + (if flags & FLAG_Z != 0 then 1 else 0) + (if flags & FLAG_M != 0 then 1 else 0)
  }

  /** The memory image of the floats c[0..n): `enc` gives the four bytes of
      one float. */
  function FloatImage(c: seq<real>, enc: real -> seq<bv8>): (r: seq<bv8>)
    requires forall x :: |enc(x)| == 4
    ensures |r| == 4 * |c|
  {
    if |c| == 0 then [] else FloatImage(c[..|c| - 1], enc) + enc(c[|c| - 1])
  }

  /** gidx_insert_into_gserialized: NULL when the dimensions differ. A
      geometry that already has a box gets it overwritten; one without
      gets the box inserted at the start of its data and the bbox flag
      set. A geometry that claims a box has at least box_size data bytes. */
  function InsertIntoGser(g: Gser, box: Box, enc: real -> seq<bv8>): (r: Option<Gser>)
    requires forall x :: |enc(x)| == 4
    requires g.flags & FLAG_BBOX != 0 ==> |g.data| >= 8 * GserDims(g.flags)
    ensures r.Some? <==> GserDims(g.flags) == NDims(box)
  {
    var n := GserDims(g.flags);
    if n != NDims(box) then None
    else if g.flags & FLAG_BBOX != 0 then
      Some(Gser(g.srid, g.flags, FloatImage(box, enc) + g.data[8 * n..]))
    else
      Some(Gser(g.srid, g.flags | FLAG_BBOX, FloatImage(box, enc) + g.data))
  }

  lemma FlagsWithBBox(f: bv8)
    ensures (f | FLAG_BBOX) & FLAG_BBOX != 0
    ensures GserDims(f | FLAG_BBOX) == GserDims(f)
    ensures (f | FLAG_BBOX) & !FLAG_BBOX == f & !FLAG_BBOX
  {
  }

  /** The result has the bbox flag, the same SRID and other flags, the box
      image at the start of its data, and then the original data without
      any old box. */
  lemma InsertLayout(g: Gser, box: Box, enc: real -> seq<bv8>)
    requires forall x :: |enc(x)| == 4
    requires g.flags & FLAG_BBOX != 0 ==> |g.data| >= 8 * GserDims(g.flags)
    requires GserDims(g.flags) == NDims(box)
    ensures var r := InsertIntoGser(g, box, enc).value;
      && r.srid == g.srid
      && r.flags & FLAG_BBOX != 0
      && r.flags & !FLAG_BBOX == g.flags & !FLAG_BBOX
      && |r.data| == 8 * NDims(box) + |Body(g)|
      && r.data[..8 * NDims(box)] == FloatImage(box, enc)
      && r.data[8 * NDims(box)..] == Body(g)
  {
    FlagsWithBBox(g.flags);
  }

  /** The data after any embedded box. */
  function Body(g: Gser): seq<bv8>
    requires g.flags & FLAG_BBOX != 0 ==> |g.data| >= 8 * GserDims(g.flags)
  {
    if g.flags & FLAG_BBOX != 0 then g.data[8 * GserDims(g.flags)..] else g.data
  }

  /** Inserting twice is inserting the second box once. */
  lemma InsertTwice(g: Gser, box1: Box, box2: Box, enc: real -> seq<bv8>)
    requires forall x :: |enc(x)| == 4
    requires g.flags & FLAG_BBOX != 0 ==> |g.data| >= 8 * GserDims(g.flags)
    requires GserDims(g.flags) == NDims(box1) == NDims(box2)
    ensures var g1 := InsertIntoGser(g, box1, enc).value;
      InsertIntoGser(g1, box2, enc) == InsertIntoGser(g, box2, enc)
  {
    FlagsWithBBox(g.flags);
    var g1 := InsertIntoGser(g, box1, enc).value;
    var n := 8 * NDims(box1);
    assert |FloatImage(box1, enc)| == n;
    assert g1.data[n..] == Body(g);
  }
}
