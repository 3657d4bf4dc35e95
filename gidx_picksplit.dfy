/** The bookkeeping of geography_gist_picksplit: the page union, the
    assignment of every entry to the BELOW or ABOVE half of every axis, the
    balance tests, the half-and-half fallback and the choice of split axis.
    Entries come as a GistEntryVector: entries[0] is unused and the entries
    are the offsets 1 .. |entries| - 1. All keys of one page have the same
    dimensionality. */
module GidxPicksplit {
  import opened Wrappers
  import opened Gidx

  /** A page of keys: at least one entry, all of the same dimensionality. */
  predicate Page(entries: seq<Box>) {
    |entries| >= 2 && forall i :: 1 <= i < |entries| ==> |entries[i]| == |entries[1]|
  }

  /** The keys at the offsets of a list. */
  function Boxes(entries: seq<Box>, list: seq<nat>): (r: seq<Box>)
    requires forall j :: 0 <= j < |list| ==> list[j] < |entries|
    ensures |r| == |list|
  {
    seq(|list|, j requires 0 <= j < |list| => entries[list[j]])
  }

  /** The offsets lo .. hi - 1 in increasing order. */
  function Range(lo: nat, hi: nat): (r: seq<nat>)
    requires lo <= hi
    ensures |r| == hi - lo
    decreases hi - lo
  {
    if hi == lo then [] else Range(lo, hi - 1) + [hi - 1]
  }

  lemma {:induction false} RangeElements(lo: nat, hi: nat)
    requires lo <= hi
    ensures forall k :: 0 <= k < hi - lo ==> Range(lo, hi)[k] == lo + k
  {
    if hi > lo {
      RangeElements(lo, hi - 1);
    }
  }

  // ---------------------------------------------------------------------
  // Page union

  /** The page-union loop: the union of all entries, and whether every entry
      equalled the union built so far. */
  method PageUnion(entries: seq<Box>) returns (union: array<real>, allEqual: bool)
    requires Page(entries)
    ensures fresh(union)
    ensures union[..] == UnionAll(entries[1..])
    ensures allEqual <==> forall i :: 1 <= i < |entries| ==> entries[i] == entries[1]
  {
    var maxoff := |entries| - 1;
    union := new real[|entries[1]|](k requires 0 <= k < |entries[1]| => entries[1][k]);
    assert union[..] == PrefixUnion(entries, 2);
    allEqual := true;
    var i := 2;
    while i <= maxoff
      invariant 2 <= i <= maxoff + 1
      invariant union.Length == |entries[1]|
      invariant union[..] == PrefixUnion(entries, i)
      invariant allEqual <==> AllSame(entries, i)
      invariant allEqual ==> union[..] == entries[1]
    {
      var cur := entries[i];
      AllSameStep(entries, i);
      MergedSelf(cur);
      allEqual := UnionStep(union, allEqual, cur);
      i := i + 1;
    }
    PrefixUnionIsUnionAll(entries, i);
    assert entries[1..i] == entries[1..];
  }

  /** One round of the page-union loop: compare the next key with the union
      so far, then merge it in. */
  method UnionStep(union: array<real>, allEqual: bool, cur: Box) returns (allEqual': bool)
    requires union.Length == |cur|
    modifies union
    ensures union[..] == Merged(old(union[..]), cur)
    ensures allEqual' <==> allEqual && cur == old(union[..])
  {
    var eq := GidxEquals(Some(union[..]), Some(cur));
    EqualSameDims(union[..], cur);
    allEqual' := allEqual;
    if allEqual && !eq {
      allEqual' := false;
    }
    Merge(union, cur);
  }

  /** The union of the keys at the offsets 1 .. i - 1, in loop order. */
  function PrefixUnion(entries: seq<Box>, i: nat): (r: Box)
    requires Page(entries) && 2 <= i <= |entries|
    ensures |r| == |entries[1]|
  {
    if i == 2 then entries[1] else Merged(PrefixUnion(entries, i - 1), entries[i - 1])
  }

  /** Every key at the offsets 1 .. i - 1 equals the first. */
  predicate AllSame(entries: seq<Box>, i: nat)
    requires 1 <= i <= |entries|
  {
    forall j :: 1 <= j < i ==> entries[j] == entries[1]
  }

  lemma AllSameStep(entries: seq<Box>, i: nat)
    requires 1 <= i < |entries|
    ensures AllSame(entries, i + 1) <==> AllSame(entries, i) && entries[i] == entries[1]
  {
  }

  lemma {:induction false} PrefixUnionIsUnionAll(entries: seq<Box>, i: nat)
    requires Page(entries) && 2 <= i <= |entries|
    ensures PrefixUnion(entries, i) == UnionAll(entries[1..i])
  {
    if i > 2 {
      PrefixUnionIsUnionAll(entries, i - 1);
      assert entries[1..i][..i - 2] == entries[1..i - 1];
    }
  }

  /** When the page-union loop reports all entries equal, only the fallback
      split is possible; the union is then the common key. */
  lemma AllEqualUnion(entries: seq<Box>)
    requires Page(entries)
    requires forall i :: 1 <= i < |entries| ==> entries[i] == entries[1]
    ensures UnionAll(entries[1..]) == entries[1]
  {
    var n := |entries| - 1;
    var bs := entries[1..];
    var k := 1;
    while k < n
      invariant 1 <= k <= n
      invariant UnionAll(bs[..k]) == entries[1]
    {
      assert bs[..k + 1][..k] == bs[..k];
      MergedSelf(entries[1]);
      k := k + 1;
    }
    assert bs[..n] == bs;
  }

  // ---------------------------------------------------------------------
  // Partition

  /** BELOW(d) and ABOVE(d): the list numbers of the two halves of axis d. */
  function Below(d: nat): nat { 2 * d }
  function Above(d: nat): nat { 2 * d + 1 }

  /** An entry goes BELOW on axis d when its min is nearer the page's min
      than its max is to the page's max. */
  predicate GoesBelow(cur: Box, page: Box, d: nat)
    requires d < NDims(cur) && d < NDims(page)
  {
    Lo(cur, d) - Lo(page, d) < Hi(page, d) - Hi(cur, d)
  }

  /** The offsets among 1..n that go to the BELOW half of axis d (below is
      true) or to its ABOVE half (below is false), in increasing order. */
  function Side(entries: seq<Box>, page: Box, d: nat, below: bool, n: nat): seq<nat>
    requires Page(entries) && n < |entries| && |page| == |entries[1]| && d < NDims(page)
  {
    if n == 0 then []
    else Side(entries, page, d, below, n - 1)
         + (if GoesBelow(entries[n], page, d) == below then [n] else [])
  }

  /** Side n extends side n - 1 by n exactly when entry n goes that way. */
  lemma SideStep(entries: seq<Box>, page: Box, d: nat, n: nat)
    requires Page(entries) && 1 <= n < |entries| && |page| == |entries[1]| && d < NDims(page)
    ensures GoesBelow(entries[n], page, d) ==>
      Side(entries, page, d, true, n) == Side(entries, page, d, true, n - 1) + [n]
      && Side(entries, page, d, false, n) == Side(entries, page, d, false, n - 1)
    ensures !GoesBelow(entries[n], page, d) ==>
      Side(entries, page, d, true, n) == Side(entries, page, d, true, n - 1)
      && Side(entries, page, d, false, n) == Side(entries, page, d, false, n - 1) + [n]
  {
  }

  /** The two counters of an axis add up to the number of entries. */
  lemma {:induction false} SidesCount(entries: seq<Box>, page: Box, d: nat, n: nat)
    requires Page(entries) && n < |entries| && |page| == |entries[1]| && d < NDims(page)
    ensures |Side(entries, page, d, true, n)| + |Side(entries, page, d, false, n)| == n
  {
    if n > 0 {
      SidesCount(entries, page, d, n - 1);
      SideStep(entries, page, d, n);
    }
  }

  /** A side holds offsets among 1..n, in strictly increasing order, so
      each at most once. */
  lemma {:induction false} SideOrdered(entries: seq<Box>, page: Box, d: nat, below: bool, n: nat)
    requires Page(entries) && n < |entries| && |page| == |entries[1]| && d < NDims(page)
    ensures forall x :: x in Side(entries, page, d, below, n) ==> 1 <= x <= n
    ensures forall j, k :: 0 <= j < k < |Side(entries, page, d, below, n)| ==>
      Side(entries, page, d, below, n)[j] < Side(entries, page, d, below, n)[k]
  {
    if n > 0 {
      SideOrdered(entries, page, d, below, n - 1);
      SideStep(entries, page, d, n);
      var prev := Side(entries, page, d, below, n - 1);
      var cur := Side(entries, page, d, below, n);
      forall j, k | 0 <= j < k < |cur|
        ensures cur[j] < cur[k]
      {
        if k < |prev| {
          assert cur[j] == prev[j] && cur[k] == prev[k];
        } else {
          assert cur[j] == prev[j] && prev[j] in prev;
        }
      }
    }
  }

  /** Each of the offsets 1..n is in exactly one half of every axis. */
  lemma SidesPartition(entries: seq<Box>, page: Box, d: nat, n: nat)
    requires Page(entries) && n < |entries| && |page| == |entries[1]| && d < NDims(page)
    ensures forall i :: 1 <= i <= n ==>
      (i in Side(entries, page, d, true, n) <==> GoesBelow(entries[i], page, d))
      && (i in Side(entries, page, d, false, n) <==> !GoesBelow(entries[i], page, d))
  {
    forall i | 1 <= i <= n
      ensures i in Side(entries, page, d, true, n) <==> GoesBelow(entries[i], page, d)
      ensures i in Side(entries, page, d, false, n) <==> !GoesBelow(entries[i], page, d)
    {
      SideMember(entries, page, d, n, i);
    }
  }

  lemma {:induction false} SideMember(entries: seq<Box>, page: Box, d: nat, n: nat, i: nat)
    requires Page(entries) && n < |entries| && |page| == |entries[1]| && d < NDims(page)
    requires 1 <= i <= n
    ensures i in Side(entries, page, d, true, n) <==> GoesBelow(entries[i], page, d)
    ensures i in Side(entries, page, d, false, n) <==> !GoesBelow(entries[i], page, d)
  {
    SideStep(entries, page, d, n);
    if i < n {
      SideMember(entries, page, d, n - 1, i);
    } else {
      SideOrdered(entries, page, d, true, n - 1);
      SideOrdered(entries, page, d, false, n - 1);
      assert n !in Side(entries, page, d, true, n - 1);
      assert n !in Side(entries, page, d, false, n - 1);
    }
  }

  /** That a list holds valid offsets of the page. */
  predicate Offsets(entries: seq<Box>, list: seq<nat>) {
    forall j :: 0 <= j < |list| ==> 1 <= list[j] < |entries|
  }

  /** geography_gist_picksplit_addlist on values: the offset is appended and
      the entry's key is copied into an empty list's union or merged into a
      non-empty one. */
  function AddList(list: seq<nat>, union: Box, cur: Box, num: nat): (seq<nat>, Box)
    requires |union| == |cur|
  {
    (list + [num], if |list| > 0 then Merged(union, cur) else cur)
  }

  /** The union the partition keeps for a list: the union of its keys. */
  predicate UnionOfList(entries: seq<Box>, list: seq<nat>, union: Box)
    requires Page(entries) && Offsets(entries, list)
  {
    |union| == |entries[1]| && (|list| > 0 ==> union == UnionAll(Boxes(entries, list)))
  }

  lemma AddListUnion(entries: seq<Box>, list: seq<nat>, union: Box, num: nat)
    requires Page(entries) && Offsets(entries, list) && 1 <= num < |entries|
    requires UnionOfList(entries, list, union)
    ensures Offsets(entries, list + [num])
    ensures UnionOfList(entries, list + [num], AddList(list, union, entries[num], num).1)
  {
    var bs := Boxes(entries, list + [num]);
    if |list| > 0 {
      assert bs[..|bs| - 1] == Boxes(entries, list);
    }
  }

  /** Lists Below(d) and Above(d), for lo <= d < hi, hold the two halves of
      axis d among the offsets 1..n. */
  predicate SidesFrom(entries: seq<Box>, page: Box, lists: seq<seq<nat>>, n: nat, lo: nat, hi: nat)
    requires Page(entries) && n < |entries| && |page| == |entries[1]| && hi <= NDims(page)
  {
    |lists| == |page|
    && forall d :: lo <= d < hi ==>
         lists[Below(d)] == Side(entries, page, d, true, n)
         && lists[Above(d)] == Side(entries, page, d, false, n)
  }

  /** Every list holds offsets of the page and has its union box. */
  predicate UnionsKept(entries: seq<Box>, lists: seq<seq<nat>>, unions: seq<Box>)
    requires Page(entries)
  {
    |unions| == |lists|
    && forall k :: 0 <= k < |lists| ==>
         Offsets(entries, lists[k]) && UnionOfList(entries, lists[k], unions[k])
  }

  /** The partition loop of picksplit: list Below(d) and Above(d) receive the
      entries that go below and above on axis d, and each list's union box
      is the union of its keys. The counters pos[k] are the list lengths. */
  method Partition(entries: seq<Box>, page: Box) returns (lists: seq<seq<nat>>, unions: seq<Box>)
    requires Page(entries) && |page| == |entries[1]|
    ensures SidesFrom(entries, page, lists, |entries| - 1, 0, NDims(page))
    ensures UnionsKept(entries, lists, unions)
  {
    var nd := NDims(page);
    var maxoff := |entries| - 1;
    var empty: Box := seq(|page|, k => 0.0);
    lists := seq(2 * nd, k => []);
    unions := seq(2 * nd, k => empty);
    var i := 1;
    while i <= maxoff
      invariant 1 <= i <= maxoff + 1
      invariant SidesFrom(entries, page, lists, i - 1, 0, nd)
      invariant UnionsKept(entries, lists, unions)
    {
      lists, unions := AddEntry(entries, page, i, lists, unions);
      i := i + 1;
    }
  }

  /** The inner loop of the partition: entry i is added, axis by axis, to
      the BELOW or the ABOVE list. */
  method AddEntry(entries: seq<Box>, page: Box, i: nat, lists0: seq<seq<nat>>, unions0: seq<Box>)
    returns (lists: seq<seq<nat>>, unions: seq<Box>)
    requires Page(entries) && |page| == |entries[1]| && 1 <= i < |entries|
    requires SidesFrom(entries, page, lists0, i - 1, 0, NDims(page))
    requires UnionsKept(entries, lists0, unions0)
    ensures SidesFrom(entries, page, lists, i, 0, NDims(page))
    ensures UnionsKept(entries, lists, unions)
  {
    var nd := NDims(page);
    var cur := entries[i];
    lists, unions := lists0, unions0;
    var d := 0;
    while d < nd
      invariant 0 <= d <= nd
      invariant SidesFrom(entries, page, lists, i, 0, d)
      invariant SidesFrom(entries, page, lists, i - 1, d, nd)
      invariant UnionsKept(entries, lists, unions)
    {
      var k := if GoesBelow(cur, page, d) then Below(d) else Above(d);
      var added := AddList(lists[k], unions[k], cur, i);
      AddEntrySides(entries, page, i, d, lists);
      AddEntryUnions(entries, i, k, lists, unions);
      lists := lists[k := added.0];
      unions := unions[k := added.1];
      d := d + 1;
    }
  }

  lemma AddEntrySides(entries: seq<Box>, page: Box, i: nat, d: nat, lists: seq<seq<nat>>)
    requires Page(entries) && |page| == |entries[1]| && 1 <= i < |entries| && d < NDims(page)
    requires SidesFrom(entries, page, lists, i, 0, d)
    requires SidesFrom(entries, page, lists, i - 1, d, NDims(page))
    ensures var k := if GoesBelow(entries[i], page, d) then Below(d) else Above(d);
      var lists' := lists[k := lists[k] + [i]];
      SidesFrom(entries, page, lists', i, 0, d + 1)
      && SidesFrom(entries, page, lists', i - 1, d + 1, NDims(page))
  {
    var below := GoesBelow(entries[i], page, d);
    var k := if below then Below(d) else Above(d);
    var lists' := lists[k := lists[k] + [i]];
    assert Side(entries, page, d, true, i) == Side(entries, page, d, true, i - 1) + (if below then [i] else []);
    assert Side(entries, page, d, false, i) == Side(entries, page, d, false, i - 1) + (if below then [] else [i]);
    assert forall e :: 0 <= e < NDims(page) && e != d ==>
      lists'[Below(e)] == lists[Below(e)] && lists'[Above(e)] == lists[Above(e)];
  }

  lemma AddEntryUnions(entries: seq<Box>, i: nat, k: nat, lists: seq<seq<nat>>, unions: seq<Box>)
    requires Page(entries) && 1 <= i < |entries| && k < |lists|
    requires UnionsKept(entries, lists, unions)
    ensures var added := AddList(lists[k], unions[k], entries[i], i);
      UnionsKept(entries, lists[k := added.0], unions[k := added.1])
  {
    AddListUnion(entries, lists[k], unions[k], i);
  }

  /** Every key is contained in the union box of each list it is in. */
  lemma ListUnionContains(entries: seq<Box>, list: seq<nat>, union: Box, j: nat)
    requires Page(entries) && Offsets(entries, list) && UnionOfList(entries, list, union)
    requires forall i :: 1 <= i < |entries| ==> Valid(entries[i])
    requires j < |list|
    ensures Contain(union, entries[list[j]])
  {
    var bs := Boxes(entries, list);
    assert forall m :: 0 <= m < |bs| ==> bs[m] == entries[list[m]];
    UnionAllContains(bs);
    assert bs[j] == entries[list[j]];
  }

  // ---------------------------------------------------------------------
  // Balance tests

  const LIMIT_RATIO: real := 0.1

  /** geography_gist_picksplit_badratio: a split into x and y entries is
      badly balanced. */
  predicate BadRatio(x: int, y: int) {
    y == 0 || (x as real) / (y as real) < LIMIT_RATIO
    || x == 0 || (y as real) / (x as real) < LIMIT_RATIO
  }

  /** For entry counts, a bad ratio is an empty half or one half more than
      ten times the other. */
  lemma BadRatioMeaning(x: nat, y: nat)
    ensures BadRatio(x, y) <==> x == 0 || y == 0 || 10 * x < y || 10 * y < x
  {
    if x > 0 && y > 0 {
      RatioBelowLimit(x as real, y as real);
      RatioBelowLimit(y as real, x as real);
    }
  }

  lemma RatioBelowLimit(p: real, q: real)
    requires q > 0.0
    ensures p / q < LIMIT_RATIO <==> 10.0 * p < q
  {
    var r := p / q;
    assert p == r * q;
    if r < LIMIT_RATIO {
      assert 10.0 * r < 1.0;
      assert 10.0 * p == (10.0 * r) * q;
    } else {
      assert 10.0 * r >= 1.0;
      assert 10.0 * p == (10.0 * r) * q;
    }
  }

  /** Every axis among 0..dims-1 is badly balanced. */
  predicate Unbalanced(pos: seq<nat>, dims: nat)
    requires 2 * dims <= |pos|
  {
    forall d :: 0 <= d < dims ==> BadRatio(pos[Below(d)], pos[Above(d)])
  }

  /** geography_gist_picksplit_badratios: every axis is badly balanced. */
  method BadRatios(pos: seq<nat>, dims: nat) returns (r: bool)
    requires 2 * dims <= |pos|
    ensures r <==> Unbalanced(pos, dims)
  {
    var i := 0;
    while i < dims
      invariant 0 <= i <= dims
      invariant forall d :: 0 <= d < i ==> BadRatio(pos[Below(d)], pos[Above(d)])
    {
      if !BadRatio(pos[2 * i], pos[2 * i + 1]) {
        assert !BadRatio(pos[Below(i)], pos[Above(i)]);
        return false;
      }
      i := i + 1;
    }
    return true;
  }

  // ---------------------------------------------------------------------
  // Fallback

  /** geography_gist_picksplit_fallback: offsets up to (maxoff - 1 + 1) / 2
      go left, the rest go right, each list with the union of its keys (NULL
      while empty). */
  method Fallback(entries: seq<Box>) returns (left: seq<nat>, right: seq<nat>, unionL: Option<Box>, unionR: Option<Box>)
    requires Page(entries)
    ensures left == Range(1, (|entries| - 1) / 2 + 1)
    ensures right == Range((|entries| - 1) / 2 + 1, |entries|)
    ensures HalfKept(entries, left, unionL) && HalfKept(entries, right, unionR)
  {
    var maxoff := |entries| - 1;
    var half := (maxoff - 1 + 1) / 2;
    left, right, unionL, unionR := [], [], None, None;
    var i := 1;
    while i <= maxoff
      invariant 1 <= i <= maxoff + 1
      invariant left == Range(1, if i <= half + 1 then i else half + 1)
      invariant right == Range(half + 1, if i <= half + 1 then half + 1 else i)
      invariant HalfKept(entries, left, unionL) && HalfKept(entries, right, unionR)
    {
      if i <= half {
        left, unionL := FallbackAdd(entries, left, unionL, i);
      } else {
        right, unionR := FallbackAdd(entries, right, unionR, i);
      }
      i := i + 1;
    }
  }

  /** geography_gist_picksplit_addlist as the fallback calls it: a NULL
      union is first set to the entry's key. */
  method FallbackAdd(entries: seq<Box>, list: seq<nat>, union: Option<Box>, i: nat)
    returns (list': seq<nat>, union': Option<Box>)
    requires Page(entries) && 1 <= i < |entries| && HalfKept(entries, list, union)
    ensures list' == list + [i]
    ensures HalfKept(entries, list', union')
  {
    var cur := entries[i];
    FallbackStep(entries, list, union, i);
    union' := Some(AddList(list, if union.None? then cur else union.value, cur, i).1);
    list' := list + [i];
  }

  /** A half of the fallback split: valid offsets, and the union of their
      keys, which is NULL while the half is empty. */
  predicate HalfKept(entries: seq<Box>, list: seq<nat>, union: Option<Box>)
    requires Page(entries)
  {
    Offsets(entries, list)
    && (union.None? <==> |list| == 0)
    && (union.Some? ==> UnionOfList(entries, list, union.value))
  }

  /** One step of the fallback loop: the union is copied from the first key
      and merged with each later one. */
  lemma FallbackStep(entries: seq<Box>, list: seq<nat>, union: Option<Box>, i: nat)
    requires Page(entries) && 1 <= i < |entries| && HalfKept(entries, list, union)
    ensures HalfKept(entries, list + [i],
      Some(AddList(list, if union.None? then entries[i] else union.value, entries[i], i).1))
  {
    AddListUnion(entries, list, if union.None? then entries[i] else union.value, i);
  }



  // ---------------------------------------------------------------------
  // Axis choice

  /** Max(pos[ABOVE(d)], pos[BELOW(d)]): the fuller half of axis d. */
  function Fuller(pos: seq<nat>, d: nat): nat
    requires Above(d) < |pos|
  {
    if pos[Above(d)] > pos[Below(d)] then pos[Above(d)] else pos[Below(d)]
  }

  /** Axis a is the first among 0..nd-1 whose fuller half is largest. */
  predicate FirstFullest(pos: seq<nat>, nd: nat, a: nat)
    requires 2 * nd <= |pos|
  {
    a < nd
    && (forall d :: 0 <= d < nd ==> Fuller(pos, d) <= Fuller(pos, a))
    && (forall d :: 0 <= d < a ==> Fuller(pos, d) < Fuller(pos, a))
  }

  /** The axis loop of picksplit: direction starts at -1 and moves to every
      axis whose fuller half beats the best so far; it stays -1 only when
      there is no axis. */
  method ChooseAxis(pos: seq<nat>, nd: nat) returns (direction: int)
    requires 2 * nd <= |pos|
    ensures nd == 0 <==> direction == -1
    ensures nd > 0 ==> direction >= 0 && FirstFullest(pos, nd, direction)
  {
    direction := -1;
    var posmax: int := -1;
    var d := 0;
    while d < nd
      invariant 0 <= d <= nd
      invariant d == 0 <==> direction == -1
      invariant d == 0 ==> posmax == -1
      invariant d > 0 ==> 0 <= direction < d && posmax == Fuller(pos, direction)
      invariant d > 0 ==> forall e :: 0 <= e < d ==> Fuller(pos, e) <= posmax
      invariant d > 0 ==> forall e :: 0 <= e < direction ==> Fuller(pos, e) < posmax
    {
      var posd := Fuller(pos, d);
      if posd > posmax {
        direction := d;
        posmax := posd;
      }
      d := d + 1;
    }
  }

  /** The comment above the axis loop asks for the axis whose fuller half is
      smallest, the most even split; the loop takes the largest. With 4
      entries split 1/3 on axis 0 and 2/2 on axis 1, axis 0 is chosen. */
  lemma FullestIsNotMostEven()
    ensures FirstFullest([1, 3, 2, 2], 2, 0)
    ensures !FirstFullest([1, 3, 2, 2], 2, 1)
    ensures Fuller([1, 3, 2, 2], 1) < Fuller([1, 3, 2, 2], 0)
  {
  }

  // ---------------------------------------------------------------------
  // The decision

  /** What picksplit decides. CenterMethod stands for the centre-point
      retry, which this model does not follow. */
  datatype Plan =
    | HalfSplit(left: seq<nat>, right: seq<nat>)
    | CenterMethod
    | AxisSplit(axis: nat, below: seq<nat>, above: seq<nat>)

  function Counts(lists: seq<seq<nat>>): (pos: seq<nat>)
    ensures |pos| == |lists|
  {
    seq(|lists|, k requires 0 <= k < |lists| => |lists[k]|)
  }

  /** geography_gist_picksplit up to the centre-point method: all-equal
      pages are cut in half; well-balanced ones are split on the first
      fullest axis. The "unable to determine split direction" error cannot
      happen: with no axis, every axis is (vacuously) badly balanced. */
  method PickSplit(entries: seq<Box>) returns (plan: Plan)
    requires Page(entries)
    ensures plan.HalfSplit? <==> AllSame(entries, |entries|)
    ensures AllSame(entries, |entries|) ==>
      plan == HalfSplit(Range(1, (|entries| - 1) / 2 + 1), Range((|entries| - 1) / 2 + 1, |entries|))
    ensures var page := UnionAll(entries[1..]);
      plan.CenterMethod? <==>
        !AllSame(entries, |entries|) && Unbalanced(Counts(PartitionLists(entries, page)), NDims(page))
    ensures var page := UnionAll(entries[1..]);
      plan.AxisSplit? <==>
        !AllSame(entries, |entries|) && !Unbalanced(Counts(PartitionLists(entries, page)), NDims(page))
    ensures plan.AxisSplit? ==>
      var page := UnionAll(entries[1..]);
      && plan.axis < NDims(page)
      && plan.below == Side(entries, page, plan.axis, true, |entries| - 1)
      && plan.above == Side(entries, page, plan.axis, false, |entries| - 1)
      && var pos := Counts(PartitionLists(entries, page));
         FirstFullest(pos, NDims(page), plan.axis)
  {
    var union, allEqual := PageUnion(entries);
    if allEqual {
      var left, right, unionL, unionR := Fallback(entries);
      return HalfSplit(left, right);
    }
    var page := union[..];
    var nd := NDims(page);
    var lists, unions := Partition(entries, page);
    PartitionListsAre(entries, page, lists);
    var pos := Counts(lists);
    var bad := BadRatios(pos, nd);
    if bad {
      return CenterMethod;
    }
    var direction := ChooseAxis(pos, nd);
    if direction < 0 {
      assert false;
    }
    plan := AxisSplit(direction, lists[Below(direction)], lists[Above(direction)]);
  }

  /** The lists the partition builds, as a function of the page. */
  function PartitionLists(entries: seq<Box>, page: Box): (lists: seq<seq<nat>>)
    requires Page(entries) && |page| == |entries[1]|
    ensures |lists| == |page|
  {
    seq(|page|, k requires 0 <= k < |page| =>
      Side(entries, page, k / 2, k % 2 == 0, |entries| - 1))
  }

  lemma PartitionListsAre(entries: seq<Box>, page: Box, lists: seq<seq<nat>>)
    requires Page(entries) && |page| == |entries[1]| && |lists| == |page|
    requires forall d :: 0 <= d < NDims(page) ==>
      lists[Below(d)] == Side(entries, page, d, true, |entries| - 1)
      && lists[Above(d)] == Side(entries, page, d, false, |entries| - 1)
    ensures lists == PartitionLists(entries, page)
  {
    forall k | 0 <= k < |page|
      ensures lists[k] == PartitionLists(entries, page)[k]
    {
      var d := k / 2;
      if k % 2 == 0 {
        assert k == Below(d);
      } else {
        assert k == Above(d);
      }
    }
  }
}
