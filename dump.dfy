/** ST_Dump and ST_DumpRings: set-returning functions that hand back one row
    per call. ST_Dump walks a geometry collection depth-first with an
    explicit stack of (collection, child index) nodes kept between calls;
    ST_DumpRings walks the rings of a polygon with a ring counter. */
module Dump {
  import opened Wrappers

  /** The size of the traversal stack. */
  const MAXDEPTH := 32
  const POLYGONTYPE := 3

  /** A deserialized geometry: a non-collection with its point arrays (one
      for a point or a line, one per ring for a polygon), or a collection of
      members. */
  datatype Geom =
    | Simple(typ: int, srid: int, arrays: seq<seq<real>>)
    | Collection(typ: int, srid: int, geoms: seq<Geom>)

  /** One output row: the path and the geometry. */
  datatype Row = Row(path: seq<int>, geom: Geom)

  // ---------------------------------------------------------------------
  // The rows of ST_Dump, defined directly

  /** A non-collection given SRID `srid`. */
  function Tagged(g: Geom, srid: int): Geom
    requires g.Simple?
  {
    Simple(g.typ, srid, g.arrays)
  }

  /** The rows for `g` reached along `path`, leaves given SRID `srid`:
      depth-first, children left to right, each child's 1-based position
      appended to the path. */
  function Rows(g: Geom, path: seq<int>, srid: int): seq<Row>
    decreases g, 1
  {
    match g
    case Simple(_, _, _) => [Row(path, Tagged(g, srid))]
    case Collection(_, _, _) => ChildRows(g, 0, path, srid)
  }

  /** The rows of the members of collection `p` from position `from` on. */
  function ChildRows(p: Geom, from: nat, prefix: seq<int>, srid: int): seq<Row>
    requires p.Collection? && from <= |p.geoms|
    decreases p, 0, |p.geoms| - from
  {
    if from == |p.geoms| then []
    else Rows(p.geoms[from], prefix + [from + 1], srid) + ChildRows(p, from + 1, prefix, srid)
  }

  /** The rows ST_Dump returns: a non-collection root gives one row with the
      empty path; a collection gives its leaves, each with the root's SRID. */
  function DumpRows(root: Geom): seq<Row> {
    Rows(root, [], root.srid)
  }

  /** The member reached from `g` by following 1-based positions. */
  function Address(g: Geom, path: seq<int>): Option<Geom>
    decreases |path|
  {
    if path == [] then Some(g)
    else if g.Collection? && 1 <= path[0] <= |g.geoms| then Address(g.geoms[path[0] - 1], path[1..])
    else None
  }

  /** Row `r` extends `path` by a suffix that leads from `g` to a
      non-collection, and carries that member with SRID `srid`. */
  predicate Addressed(g: Geom, path: seq<int>, srid: int, r: Row) {
    |path| <= |r.path| && r.path[..|path|] == path
    && var a := Address(g, r.path[|path|..]);
    a.Some? && a.value.Simple? && r.geom == Tagged(a.value, srid)
  }

  lemma AddressStep(p: Geom, i: nat, q: seq<int>)
    requires p.Collection? && i < |p.geoms|
    ensures Address(p, [i + 1] + q) == Address(p.geoms[i], q)
  {
    assert ([i + 1] + q)[1..] == q;
  }

  /** Every row names, by its path, a non-collection member of the root, and
      carries it with the requested SRID. */
  lemma {:induction false} RowsAddressed(g: Geom, path: seq<int>, srid: int)
    ensures forall k :: 0 <= k < |Rows(g, path, srid)| ==> Addressed(g, path, srid, Rows(g, path, srid)[k])
    decreases g, 1
  {
    match g
    case Simple(_, _, _) =>
      assert Rows(g, path, srid)[0].path[|path|..] == [];
    case Collection(_, _, _) =>
      ChildRowsAddressed(g, 0, path, srid);
  }

  lemma {:induction false} ChildRowsAddressed(p: Geom, from: nat, prefix: seq<int>, srid: int)
    requires p.Collection? && from <= |p.geoms|
    ensures forall k :: 0 <= k < |ChildRows(p, from, prefix, srid)| ==> Addressed(p, prefix, srid, ChildRows(p, from, prefix, srid)[k])
    decreases p, 0, |p.geoms| - from
  {
    if from < |p.geoms| {
      var c := p.geoms[from];
      var ext := prefix + [from + 1];
      var head := Rows(c, ext, srid);
      var tail := ChildRows(p, from + 1, prefix, srid);
      RowsAddressed(c, ext, srid);
      ChildRowsAddressed(p, from + 1, prefix, srid);
      forall k | 0 <= k < |head|
        ensures Addressed(p, prefix, srid, head[k])
      {
        var r := head[k];
        assert Addressed(c, ext, srid, r);
        assert r.path[..|prefix|] == ext[..|prefix|] == prefix;
        var q := r.path[|ext|..];
        assert r.path[|prefix|..] == [from + 1] + q;
        AddressStep(p, from, q);
      }
      assert ChildRows(p, from, prefix, srid) == head + tail;
    }
  }

  /** The number of rows is the number of non-collection members; empty
      collections contribute none. */
  function Leaves(g: Geom): nat
    decreases g, 1
  {
    match g
    case Simple(_, _, _) => 1
    case Collection(_, _, _) => ChildLeaves(g, 0)
  }

  function ChildLeaves(p: Geom, from: nat): nat
    requires p.Collection? && from <= |p.geoms|
    decreases p, 0, |p.geoms| - from
  {
    if from == |p.geoms| then 0 else Leaves(p.geoms[from]) + ChildLeaves(p, from + 1)
  }

  lemma {:induction false} RowsCount(g: Geom, path: seq<int>, srid: int)
    ensures |Rows(g, path, srid)| == Leaves(g)
    decreases g, 1
  {
    if g.Collection? {
      ChildRowsCount(g, 0, path, srid);
    }
  }

  lemma {:induction false} ChildRowsCount(p: Geom, from: nat, prefix: seq<int>, srid: int)
    requires p.Collection? && from <= |p.geoms|
    ensures |ChildRows(p, from, prefix, srid)| == ChildLeaves(p, from)
    decreases p, 0, |p.geoms| - from
  {
    if from < |p.geoms| {
      RowsCount(p.geoms[from], prefix + [from + 1], srid);
      ChildRowsCount(p, from + 1, prefix, srid);
    }
  }

  // ---------------------------------------------------------------------
  // Nesting depth

  /** The number of nested collections on the deepest path. */
  function Depth(g: Geom): nat
    decreases g, 1
  {
    match g
    case Simple(_, _, _) => 0
    case Collection(_, _, _) => 1 + ChildDepth(g, 0)
  }

  function ChildDepth(p: Geom, from: nat): nat
    requires p.Collection? && from <= |p.geoms|
    decreases p, 0, |p.geoms| - from
  {
    if from == |p.geoms| then 0
    else var a := Depth(p.geoms[from]); var b := ChildDepth(p, from + 1); if a > b then a else b
  }

  lemma {:induction false} ChildDepthBound(p: Geom, from: nat, i: nat)
    requires p.Collection? && from <= i < |p.geoms|
    ensures Depth(p.geoms[i]) <= ChildDepth(p, from)
    decreases |p.geoms| - from
  {
    if from < i {
      ChildDepthBound(p, from + 1, i);
    }
  }

  /** A member is less deeply nested than its collection. */
  lemma MemberShallower(p: Geom, i: nat)
    requires p.Collection? && i < |p.geoms|
    ensures Depth(p.geoms[i]) < Depth(p)
  {
    ChildDepthBound(p, 0, i);
  }

  // ---------------------------------------------------------------------
  // The traversal stack

  /** Each index plus one: the path written for the current member. */
  function Prefix(idxs: seq<int>): (r: seq<int>)
    ensures |r| == |idxs|
  {
    if idxs == [] then [] else Prefix(idxs[..|idxs| - 1]) + [idxs[|idxs| - 1] + 1]
  }

  lemma PrefixSnoc(idxs: seq<int>, i: int)
    ensures Prefix(idxs + [i]) == Prefix(idxs) + [i + 1]
  {
    assert (idxs + [i])[..|idxs|] == idxs;
  }

  /** The stack after the top node is popped and its parent's index
      advanced. */
  function Popped(idxs: seq<int>): seq<int>
    requires |idxs| >= 2
  {
    idxs[..|idxs| - 2] + [idxs[|idxs| - 2] + 1]
  }

  /** The top index advanced by one. */
  function Advance(idxs: seq<int>): seq<int>
    requires |idxs| >= 1
  {
    idxs[..|idxs| - 1] + [idxs[|idxs| - 1] + 1]
  }

  /** The rows of one node: the members of `p` from index `i` on. */
  function Level(p: Geom, i: int, prefix: seq<int>, srid: int): seq<Row> {
    if p.Collection? && 0 <= i <= |p.geoms| then ChildRows(p, i, prefix, srid) else []
  }

  /** The rows the stack still has to produce: the remaining members of the
      top collection, then those of each collection below it after the
      member currently being visited. */
  function Pending(idxs: seq<int>, gs: seq<Geom>, srid: int): seq<Row>
    requires |idxs| == |gs|
    decreases |idxs|, 1
  {
    if |idxs| == 0 then []
    else
      var n := |idxs|;
      Level(gs[n - 1], idxs[n - 1], Prefix(idxs[..n - 1]), srid) + Below(idxs, gs, srid)
  }

  /** The rows owed by the nodes under the top one. */
  function Below(idxs: seq<int>, gs: seq<Geom>, srid: int): seq<Row>
    requires |idxs| == |gs| && |idxs| >= 1
    decreases |idxs|, 0
  {
    if |idxs| == 1 then [] else Pending(Popped(idxs), gs[..|gs| - 1], srid)
  }

  /** A bound on the steps the traversal still takes. */
  function Size(g: Geom): nat
    decreases g, 1
  {
    match g
    case Simple(_, _, _) => 1
    case Collection(_, _, _) => 2 + ChildSize(g, 0)
  }

  function ChildSize(p: Geom, from: nat): nat
    requires p.Collection? && from <= |p.geoms|
    decreases p, 0, |p.geoms| - from
  {
    if from == |p.geoms| then 0 else Size(p.geoms[from]) + ChildSize(p, from + 1)
  }

  function LevelSize(p: Geom, i: int): nat {
    if p.Collection? && 0 <= i <= |p.geoms| then ChildSize(p, i) else 0
  }

  function Measure(idxs: seq<int>, gs: seq<Geom>): nat
    requires |idxs| == |gs|
    decreases |idxs|, 1
  {
    if |idxs| == 0 then 0
    else 1 + LevelSize(gs[|gs| - 1], idxs[|idxs| - 1]) + MeasureBelow(idxs, gs)
  }

  function MeasureBelow(idxs: seq<int>, gs: seq<Geom>): nat
    requires |idxs| == |gs| && |idxs| >= 1
    decreases |idxs|, 0
  {
    if |idxs| == 1 then 0 else Measure(Popped(idxs), gs[..|gs| - 1])
  }

  /** The nodes form a chain of collections, each one the member that its
      parent's index designates; the top index is unconstrained. */
  predicate Linked(idxs: seq<int>, gs: seq<Geom>)
    decreases |gs|
  {
    |idxs| == |gs|
    && (|gs| == 0
        || (gs[|gs| - 1].Collection?
            && (|gs| == 1
                || (gs[|gs| - 2].Collection? && 0 <= idxs[|gs| - 2] < |gs[|gs| - 2].geoms|
                    && gs[|gs| - 1] == gs[|gs| - 2].geoms[idxs[|gs| - 2]]))
            && Linked(idxs[..|gs| - 1], gs[..|gs| - 1])))
  }

  /** The stack is the chain of collections from the root to the current
      one, and the top index is at most one past the top's last member. */
  predicate Chain(root: Geom, idxs: seq<int>, gs: seq<Geom>) {
    Linked(idxs, gs) && |gs| >= 1 && gs[0] == root && gs[|gs| - 1].Collection?
    && 0 <= idxs[|idxs| - 1] <= |gs[|gs| - 1].geoms|
  }

  /** Linked does not look at the top index. */
  lemma LinkedAdvance(idxs: seq<int>, gs: seq<Geom>)
    requires Linked(idxs, gs) && |gs| >= 1
    ensures Linked(Advance(idxs), gs)
  {
    var n := |gs|;
    var up := Advance(idxs);
    assert up[..n - 1] == idxs[..n - 1];
    if n >= 2 {
      assert up[n - 2] == idxs[n - 2];
      assert gs[n - 1] == gs[n - 2].geoms[up[n - 2]];
    }
  }

  /** Each level of the chain is at least one collection shallower than the
      one below it. */
  lemma {:induction false} LinkedDepth(idxs: seq<int>, gs: seq<Geom>)
    requires Linked(idxs, gs) && |gs| >= 1
    ensures Depth(gs[|gs| - 1]) + |gs| - 1 <= Depth(gs[0])
    decreases |gs|
  {
    var n := |gs|;
    if n >= 2 {
      LinkedDepth(idxs[..n - 1], gs[..n - 1]);
      MemberShallower(gs[n - 2], idxs[n - 2]);
    }
  }

  /** What lies below the top node does not depend on the top index. */
  lemma BelowIgnoresTop(a: seq<int>, b: seq<int>, gs: seq<Geom>, srid: int)
    requires |a| == |b| == |gs| >= 1
    requires a[..|a| - 1] == b[..|b| - 1]
    ensures Below(a, gs, srid) == Below(b, gs, srid)
    ensures MeasureBelow(a, gs) == MeasureBelow(b, gs)
  {
    if |a| >= 2 {
      assert Popped(a) == Popped(b);
    }
  }

  /** The chain survives advancing the top index, pushing the member it
      designates, and popping. */
  lemma ChainAdvance(root: Geom, idxs: seq<int>, gs: seq<Geom>)
    requires Chain(root, idxs, gs) && idxs[|idxs| - 1] < |gs[|gs| - 1].geoms|
    ensures Chain(root, Advance(idxs), gs)
  {
    LinkedAdvance(idxs, gs);
  }

  lemma ChainPush(root: Geom, idxs: seq<int>, gs: seq<Geom>)
    requires Chain(root, idxs, gs)
    requires idxs[|idxs| - 1] < |gs[|gs| - 1].geoms|
    requires gs[|gs| - 1].geoms[idxs[|idxs| - 1]].Collection?
    ensures var c := gs[|gs| - 1].geoms[idxs[|idxs| - 1]];
      Chain(root, idxs + [0], gs + [c]) && |gs| < Depth(root)
  {
    var n := |gs|;
    var c := gs[n - 1].geoms[idxs[n - 1]];
    assert (idxs + [0])[..n] == idxs && (gs + [c])[..n] == gs;
    LinkedDepth(idxs, gs);
    MemberShallower(gs[n - 1], idxs[n - 1]);
    assert Depth(c) >= 1;
  }

  lemma ChainPop(root: Geom, idxs: seq<int>, gs: seq<Geom>)
    requires Chain(root, idxs, gs) && |idxs| >= 2
    ensures Chain(root, Popped(idxs), gs[..|gs| - 1])
  {
    var n := |gs|;
    assert Popped(idxs) == Advance(idxs[..n - 1]);
    LinkedAdvance(idxs[..n - 1], gs[..n - 1]);
  }

  /** Entering a member collection keeps the pending rows. */
  lemma PushPending(idxs: seq<int>, gs: seq<Geom>, srid: int)
    requires |idxs| == |gs| >= 1 && gs[|gs| - 1].Collection?
    requires 0 <= idxs[|idxs| - 1] < |gs[|gs| - 1].geoms|
    requires gs[|gs| - 1].geoms[idxs[|idxs| - 1]].Collection?
    ensures var c := gs[|gs| - 1].geoms[idxs[|idxs| - 1]];
      Pending(idxs + [0], gs + [c], srid) == Pending(idxs, gs, srid)
  {
    var n := |idxs|;
    var top := gs[n - 1];
    var i := idxs[n - 1];
    var c := top.geoms[i];
    var ids2, gs2 := idxs + [0], gs + [c];
    var up := Advance(idxs);
    var p := Prefix(idxs[..n - 1]);
    assert Popped(ids2) == up && gs2[..n] == gs && ids2[..n] == idxs;
    assert Below(ids2, gs2, srid) == Pending(up, gs, srid);
    assert up[..n - 1] == idxs[..n - 1];
    BelowIgnoresTop(up, idxs, gs, srid);
    PrefixSnoc(idxs[..n - 1], i);
    assert idxs[..n - 1] + [i] == idxs;
    assert Pending(ids2, gs2, srid) == ChildRows(c, 0, p + [i + 1], srid) + Pending(up, gs, srid);
    assert Pending(up, gs, srid) == ChildRows(top, i + 1, p, srid) + Below(idxs, gs, srid);
    assert ChildRows(top, i, p, srid) == ChildRows(c, 0, p + [i + 1], srid) + ChildRows(top, i + 1, p, srid);
  }

  /** Entering a member collection lowers the measure. */
  lemma PushMeasure(idxs: seq<int>, gs: seq<Geom>)
    requires |idxs| == |gs| >= 1 && gs[|gs| - 1].Collection?
    requires 0 <= idxs[|idxs| - 1] < |gs[|gs| - 1].geoms|
    requires gs[|gs| - 1].geoms[idxs[|idxs| - 1]].Collection?
    ensures var c := gs[|gs| - 1].geoms[idxs[|idxs| - 1]];
      Measure(idxs + [0], gs + [c]) < Measure(idxs, gs)
  {
    var n := |idxs|;
    var top := gs[n - 1];
    var i := idxs[n - 1];
    var c := top.geoms[i];
    var ids2, gs2 := idxs + [0], gs + [c];
    var up := Advance(idxs);
    assert Popped(ids2) == up && gs2[..n] == gs;
    assert MeasureBelow(ids2, gs2) == Measure(up, gs);
    assert up[..n - 1] == idxs[..n - 1];
    BelowIgnoresTop(up, idxs, gs, 0);
    assert ChildSize(top, i) == Size(c) + ChildSize(top, i + 1);
  }

  /** Leaving an exhausted collection: same pending rows, smaller measure. */
  lemma PopStep(idxs: seq<int>, gs: seq<Geom>, srid: int)
    requires |idxs| == |gs| >= 2 && gs[|gs| - 1].Collection?
    requires idxs[|idxs| - 1] == |gs[|gs| - 1].geoms|
    ensures Pending(Popped(idxs), gs[..|gs| - 1], srid) == Pending(idxs, gs, srid)
    ensures Measure(Popped(idxs), gs[..|gs| - 1]) < Measure(idxs, gs)
  {
    assert ChildRows(gs[|gs| - 1], idxs[|idxs| - 1], Prefix(idxs[..|idxs| - 1]), srid) == [];
  }

  lemma PendingUnfold(idxs: seq<int>, gs: seq<Geom>, srid: int)
    requires |idxs| == |gs| >= 1 && gs[|gs| - 1].Collection?
    requires 0 <= idxs[|idxs| - 1] <= |gs[|gs| - 1].geoms|
    ensures Pending(idxs, gs, srid)
      == ChildRows(gs[|gs| - 1], idxs[|idxs| - 1], Prefix(idxs[..|idxs| - 1]), srid) + Below(idxs, gs, srid)
  {
  }

  lemma EmitHead(p: Geom, i: nat, prefix: seq<int>, srid: int)
    requires p.Collection? && i < |p.geoms| && p.geoms[i].Simple?
    ensures ChildRows(p, i, prefix, srid)
      == [Row(prefix + [i + 1], Tagged(p.geoms[i], srid))] + ChildRows(p, i + 1, prefix, srid)
  {
  }

  /** Emitting the non-collection under the top index: it is the first
      pending row, and advancing the index leaves the rest. */
  lemma EmitStep(idxs: seq<int>, gs: seq<Geom>, srid: int)
    requires |idxs| == |gs| >= 1 && gs[|gs| - 1].Collection?
    requires 0 <= idxs[|idxs| - 1] < |gs[|gs| - 1].geoms|
    requires gs[|gs| - 1].geoms[idxs[|idxs| - 1]].Simple?
    ensures Pending(idxs, gs, srid) != []
    ensures Pending(idxs, gs, srid)[0] == Row(Prefix(idxs), Tagged(gs[|gs| - 1].geoms[idxs[|idxs| - 1]], srid))
    ensures Pending(Advance(idxs), gs, srid) == Pending(idxs, gs, srid)[1..]
  {
    var n := |idxs|;
    var top := gs[n - 1];
    var i := idxs[n - 1];
    var up := Advance(idxs);
    var p := Prefix(idxs[..n - 1]);
    assert up[..n - 1] == idxs[..n - 1];
    BelowIgnoresTop(up, idxs, gs, srid);
    PrefixSnoc(idxs[..n - 1], i);
    assert idxs[..n - 1] + [i] == idxs;
    PendingUnfold(idxs, gs, srid);
    PendingUnfold(up, gs, srid);
    EmitHead(top, i, p, srid);
    var rest := ChildRows(top, i + 1, p, srid) + Below(idxs, gs, srid);
    var row := Row(p + [i + 1], Tagged(top.geoms[i], srid));
    assert Pending(idxs, gs, srid) == [row] + rest;
  }

  /** The state of one ST_Dump call sequence. */
  class DumpState {
    /** The input; the non-collection case clears it once its row is out. */
    var root: Option<Geom>
    var stacklen: int
    /** The stack of GEOMDUMPNODEs as two arrays: each node's child index
        and its collection. */
    const idx: array<int>
    const geom: array<Geom>
    /** The live part of the stack, and the rows the remaining calls return. */
    ghost var ids: seq<int>
    ghost var gs: seq<Geom>
    ghost var rem: seq<Row>

    ghost predicate Valid()
      reads this, idx, geom
    {
      idx.Length == MAXDEPTH && geom.Length == MAXDEPTH
      && 0 <= stacklen <= MAXDEPTH && |ids| == stacklen && |gs| == stacklen
      && idx[..stacklen] == ids && geom[..stacklen] == gs
      && (root.None? ==> stacklen == 0 && rem == [])
      && (root.Some? && root.value.Simple? ==> stacklen == 0 && rem == [Row([], root.value)])
      && (root.Some? && root.value.Collection? ==>
            Depth(root.value) <= MAXDEPTH
            && (stacklen == 0 ==> rem == [])
            && (stacklen > 0 ==> Chain(root.value, ids, gs) && rem == Pending(ids, gs, root.value.srid)))
    }

    /** The set has not ended yet (the caller stops calling once it has). */
    predicate Live()
      reads this
    {
      root.Some? && root.value.Collection? ==> stacklen > 0
    }

    /** The first call: a collection root is pushed with index 0. */
    constructor (g: Geom)
      requires Depth(g) <= MAXDEPTH
      ensures Valid() && Live() && fresh(idx) && fresh(geom)
      ensures rem == DumpRows(g)
    {
      root := Some(g);
      idx := new int[MAXDEPTH];
      geom := new Geom[MAXDEPTH](_ => g);
      stacklen := if g.Collection? then 1 else 0;
      ids := if g.Collection? then [0] else [];
      gs := if g.Collection? then [g] else [];
      rem := DumpRows(g);
      new;
      if g.Collection? {
        idx[0] := 0;
        assert idx[..1] == [0] && geom[..1] == [g];
        assert Prefix([]) == [] && [0][..0] == [];
        assert Pending([0], [g], g.srid) == ChildRows(g, 0, [], g.srid);
      }
    }

    /** The traversal is inside the root collection. */
    ghost predicate Walking()
      reads this, idx, geom
    {
      Valid() && root.Some? && root.value.Collection? && stacklen > 0
    }

    /** The address of the current member: each node's index plus one,
        from the root down. */
    method WriteAddress() returns (address: seq<int>)
      requires idx.Length == MAXDEPTH && 0 <= stacklen <= MAXDEPTH
      ensures address == Prefix(idx[..stacklen])
    {
      address := [];
      for i := 0 to stacklen
        invariant address == Prefix(idx[..i])
      {
        assert idx[..i + 1] == idx[..i] + [idx[i]];
        PrefixSnoc(idx[..i], idx[i]);
        address := address + [idx[i] + 1];
      }
    }

    /** Writes node slot i of the index array; the slots below it stay. */
    method SetIdx(i: int, v: int)
      requires idx.Length == MAXDEPTH && 0 <= i < MAXDEPTH
      modifies idx
      ensures idx[..i + 1] == old(idx[..i]) + [v]
    {
      idx[i] := v;
      assert idx[..i + 1] == idx[..i] + [v];
    }

    /** Writes node slot i of the collection array; the slots below it stay. */
    method SetGeom(i: int, g: Geom)
      requires geom.Length == MAXDEPTH && 0 <= i < MAXDEPTH
      modifies geom
      ensures geom[..i + 1] == old(geom[..i]) + [g]
    {
      geom[i] := g;
      assert geom[..i + 1] == geom[..i] + [g];
    }

    /** The top node's index designates a member collection: PUSH it. */
    method Enter()
      requires Walking()
      requires idx[stacklen - 1] < |geom[stacklen - 1].geoms|
      requires geom[stacklen - 1].geoms[idx[stacklen - 1]].Collection?
      modifies this, idx, geom
      ensures Walking() && root == old(root) && rem == old(rem)
      ensures Measure(ids, gs) < old(Measure(ids, gs))
    {
      var k := stacklen - 1;
      var child := geom[k].geoms[idx[k]];
      PushPending(ids, gs, root.value.srid);
      PushMeasure(ids, gs);
      ChainPush(root.value, ids, gs);
      ghost var up, above := ids + [0], gs + [child];
      SetIdx(stacklen, 0);
      SetGeom(stacklen, child);
      stacklen := stacklen + 1;
      ids, gs := up, above;
    }

    /** The top collection is exhausted and is not the root: POP it and
        advance its parent's index. */
    method Leave()
      requires Walking() && stacklen >= 2
      requires idx[stacklen - 1] == |geom[stacklen - 1].geoms|
      modifies this, idx
      ensures Walking() && root == old(root) && rem == old(rem)
      ensures Measure(ids, gs) < old(Measure(ids, gs))
    {
      PopStep(ids, gs, root.value.srid);
      ChainPop(root.value, ids, gs);
      var n := stacklen - 1;
      assert idx[..n - 1] == ids[..n - 1] && idx[n - 1] == ids[n - 1];
      assert geom[..n] == gs[..n];
      ghost var dn, below := Popped(ids), gs[..n];
      SetIdx(n - 1, idx[n - 1] + 1);
      stacklen := n;
      ids, gs := dn, below;
    }

    /** The top node's index designates a non-collection: it is the row, and
        the index moves past it. */
    method Emit() returns (row: Row)
      requires Walking()
      requires idx[stacklen - 1] < |geom[stacklen - 1].geoms|
      requires geom[stacklen - 1].geoms[idx[stacklen - 1]].Simple?
      modifies this, idx
      ensures Walking() && root == old(root)
      ensures old(rem) != [] && row == old(rem)[0] && rem == old(rem)[1..]
    {
      var k := stacklen - 1;
      var srid := root.value.srid;
      EmitStep(ids, gs, srid);
      ChainAdvance(root.value, ids, gs);
      var address := WriteAddress();
      row := Row(address, Tagged(geom[k].geoms[idx[k]], srid));
      var v := idx[k] + 1;
      ghost var below := idx[..k];
      ghost var up, rest := Advance(ids), rem[1..];
      assert up == below + [v];
      ids, rem := up, rest;
      SetIdx(k, v);
    }

    /** The root collection is exhausted: the final POP empties the stack. */
    method Finish()
      requires Walking() && stacklen == 1
      requires idx[0] == |geom[0].geoms|
      modifies this
      ensures Valid() && old(rem) == [] && rem == []
    {
      PendingUnfold(ids, gs, root.value.srid);
      stacklen := 0;
      ids, gs := [], [];
    }

    /** One call: the next row, or None when the set is done. */
    method Next() returns (r: Option<Row>)
      requires Valid() && Live()
      modifies this, idx, geom
      ensures Valid()
      ensures r.Some? ==> Live()
      ensures old(rem) == [] ==> r.None? && rem == []
      ensures old(rem) != [] ==> r == Some(old(rem)[0]) && rem == old(rem)[1..]
    {
      if root.None? {
        return None;
      }
      if root.value.Simple? {
        r := Some(Row([], root.value));
        root := None;
        rem := [];
        return;
      }
      while true
        invariant Walking() && root == old(root) && rem == old(rem)
        decreases Measure(ids, gs)
      {
        var k := stacklen - 1;
        if idx[k] < |geom[k].geoms| {
          if geom[k].geoms[idx[k]].Simple? {
            var row := Emit();
            return Some(row);
          }
          Enter();
        } else {
          if stacklen == 1 {
            Finish();
            return None;
          }
          Leave();
        }
      }
    }
  }

  /** The whole set: rows are collected until a call reports the end. */
  method Dump(g: Geom) returns (rows: seq<Row>)
    requires Depth(g) <= MAXDEPTH
    ensures rows == DumpRows(g)
  {
    var st := new DumpState(g);
    rows := [];
    while true
      invariant st.Valid() && st.Live()
      invariant rows + st.rem == DumpRows(g)
      decreases |st.rem|
    {
      ghost var rem := st.rem;
      var r := st.Next();
      if r.None? {
        assert rows + rem == rows;
        return;
      }
      assert rem == [r.value] + st.rem;
      rows := rows + [r.value];
    }
  }

  // ---------------------------------------------------------------------
  // ST_DumpRings

  /** The rows of ST_DumpRings: ring k as a one-ring polygon with the input's
      SRID and the 0-based path [k]. */
  function RingRows(poly: Geom): seq<Row>
    requires poly.Simple?
  {
    RingRowsFrom(poly, 0)
  }

  /** The ring rows from ring `k` on. */
  function RingRowsFrom(poly: Geom, k: nat): seq<Row>
    requires poly.Simple? && k <= |poly.arrays|
    decreases |poly.arrays| - k
  {
    if k == |poly.arrays| then []
    else [Row([k], Simple(POLYGONTYPE, poly.srid, [poly.arrays[k]]))] + RingRowsFrom(poly, k + 1)
  }

  class RingDumpState {
    var ringnum: int
    const poly: Geom

    predicate Valid()
      reads this
    {
      poly.Simple? && 0 <= ringnum <= |poly.arrays|
    }

    ghost function Remaining(): seq<Row>
      requires Valid()
      reads this
    {
      RingRowsFrom(poly, ringnum)
    }

    constructor (g: Geom)
      requires g.Simple?
      ensures Valid() && poly == g && Remaining() == RingRows(g)
    {
      poly := g;
      ringnum := 0;
    }

    /** One call: the next ring, or None after the last one. */
    method Next() returns (r: Option<Row>)
      requires Valid()
      modifies this
      ensures Valid()
      ensures old(Remaining()) == [] ==> r.None? && Remaining() == []
      ensures old(Remaining()) != [] ==> r == Some(old(Remaining())[0]) && Remaining() == old(Remaining())[1..]
    {
      if ringnum < |poly.arrays| {
        r := Some(Row([ringnum], Simple(POLYGONTYPE, poly.srid, [poly.arrays[ringnum]])));
        ringnum := ringnum + 1;
      } else {
        r := None;
      }
    }
  }

  /** ST_DumpRings on a whole input: a non-polygon is an error. */
  method DumpRings(g: Geom) returns (result: Result<seq<Row>>)
    ensures result.Err? <==> !(g.Simple? && g.typ == POLYGONTYPE)
    ensures result.Ok? ==> result.value == RingRows(g)
  {
    if !(g.Simple? && g.typ == POLYGONTYPE) {
      return Err("Input is not a polygon");
    }
    var st := new RingDumpState(g);
    var rows := [];
    var r := st.Next();
    while r.Some?
      invariant st.Valid() && st.poly == g
      invariant r.Some? ==> rows + [r.value] + st.Remaining() == RingRows(g)
      invariant r.None? ==> rows == RingRows(g)
      decreases |st.Remaining()| + (if r.Some? then 1 else 0)
    {
      ghost var rem := st.Remaining();
      rows := rows + [r.value];
      r := st.Next();
      assert r.Some? ==> rem == [r.value] + st.Remaining();
    }
    return Ok(rows);
  }

  lemma {:induction false} RingRowsFromAt(poly: Geom, from: nat, k: nat)
    requires poly.Simple? && from <= k < |poly.arrays|
    ensures |RingRowsFrom(poly, from)| == |poly.arrays| - from
    ensures RingRowsFrom(poly, from)[k - from] == Row([k], Simple(POLYGONTYPE, poly.srid, [poly.arrays[k]]))
    decreases |poly.arrays| - from
  {
    if from < k {
      RingRowsFromAt(poly, from + 1, k);
    } else if from + 1 < |poly.arrays| {
      RingRowsFromAt(poly, from + 1, from + 1);
    }
  }

  /** Row k of ST_DumpRings is ring k alone, as a polygon with the input's
      SRID and path [k]; there is one row per ring. */
  lemma RingRowsRings(poly: Geom, k: nat)
    requires poly.Simple? && k < |poly.arrays|
    ensures |RingRows(poly)| == |poly.arrays|
    ensures var r := RingRows(poly)[k];
      r.path == [k] && r.geom.Simple? && r.geom.typ == POLYGONTYPE
      && r.geom.srid == poly.srid && r.geom.arrays == [poly.arrays[k]]
  {
    RingRowsFromAt(poly, 0, k);
  }
}
