/**
 The prune list: the roots of the pruned subtrees, a cache of every pruned position, and
 prefix sums from which the file shift of a position is read by rank.
 */
module PruneLists {
  import opened Binary
  import opened Mmr
  import opened Bitmaps
  import opened Navigation
  import opened Pruning
  import opened Ranks

  ghost predicate HoldsRoots(bitmap: set<Pos>, leaves: set<Pos>) {
    forall p: Pos :: p in bitmap <==> Root(leaves, p)
  }

  ghost predicate HoldsFull(cache: set<Pos>, leaves: set<Pos>) {
    forall p: Pos :: p in cache <==> Full(leaves, p)
  }

  /**
   Halfway through adding leaf `x`: the climb has reached `current`, the nodes below it on the
   way up are in the cache, and the roots strictly below it have been absorbed.
   */
  ghost predicate Climbing(leaves: set<Pos>, x: Pos, current: Pos, bitmap: set<Pos>, cache: set<Pos>) {
    && Under(x, current)
    && Full(leaves + {x}, current)
    && (forall p: Pos :: p in cache <==> Full(leaves, p) || (Under(x, p) && p < current))
    && (forall p: Pos :: p in bitmap <==> Root(leaves, p) && !(Under(p, current) && p != current))
  }

  lemma ClimbStart(leaves: set<Pos>, x: Pos, bitmap: set<Pos>, cache: set<Pos>)
    requires IsLeaf(x) && HoldsRoots(bitmap, leaves) && HoldsFull(cache, leaves)
    ensures Climbing(leaves, x, x, bitmap, cache)
  {
    FirstUp(x);
    FullLeaf(leaves + {x}, x);
  }

  /** Two nodes above the same leaf are one above the other. */
  lemma Chain(x: Pos, p: Pos, q: Pos)
    requires Under(x, p) && Under(x, q) && p <= q
    ensures Under(p, q)
    ensures p < q ==> Under(Parent(p), q)
  {
    if p != q { UnderClosed(p, q); }
  }

  lemma ClimbUp(leaves: set<Pos>, x: Pos, current: Pos, bitmap: set<Pos>, cache: set<Pos>)
    requires IsLeaf(x) && Climbing(leaves, x, current, bitmap, cache)
    requires Sibling(current) in bitmap || Sibling(current) in cache
    ensures Climbing(leaves, x, Parent(current), bitmap - {Sibling(current)}, cache + {current})
    ensures Full(leaves, Sibling(current))
  {
    hide Full, Under, Parent, Sibling;
    var s, parent := Sibling(current), Parent(current);
    Family(current);
    UnderParent(x, current);
    assert Full(leaves, s);
    FullElsewhere(leaves, x, s);
    FullParent(leaves + {x}, current);
    FullParent(leaves, current);
    forall p: Pos ensures p in cache + {current} <==> Full(leaves, p) || (Under(x, p) && p < parent) {
      ClimbUpCache(leaves, x, current, p);
    }
    forall p: Pos
      ensures p in bitmap - {s} <==> Root(leaves, p) && !(Under(p, parent) && p != parent) {
      ClimbUpRoots(leaves, current, p);
    }
  }

  lemma ClimbUpCache(leaves: set<Pos>, x: Pos, current: Pos, p: Pos)
    requires Under(x, current)
    ensures Under(x, p) && p < Parent(current) ==> p <= current
    ensures Under(x, current) && current < Parent(current)
  {
    Family(current);
    UnderParent(x, current);
    if Under(x, p) && current < p { Chain(x, current, p); }
  }

  lemma ClimbUpRoots(leaves: set<Pos>, current: Pos, p: Pos)
    requires Full(leaves, Sibling(current))
    ensures Root(leaves, p) && Under(p, Parent(current)) && p != Parent(current) ==>
            (Under(p, current) && p != current) || p == Sibling(current)
    ensures Under(p, current) && p != current ==> Under(p, Parent(current)) && p != Parent(current)
    ensures Under(Sibling(current), Parent(current)) && Sibling(current) != Parent(current)
  {
    hide Full;
    var s := Sibling(current);
    Family(current);
    UnderParent(p, current);
    UnderParent(s, current);
    UnderSelf(s);
    if Root(leaves, p) && p == current { FullParent(leaves, current); }
    if Root(leaves, p) && Under(p, s) && p != s { CompactedUnder(leaves, s, p); }
  }

  lemma ClimbEnd(leaves: set<Pos>, x: Pos, current: Pos, bitmap: set<Pos>, cache: set<Pos>)
    requires IsLeaf(x) && Climbing(leaves, x, current, bitmap, cache)
    requires Sibling(current) !in cache
    ensures HoldsRoots(bitmap + {current}, leaves + {x})
    ensures HoldsFull(cache + {current}, leaves + {x})
  {
    hide Full, Under, Parent, Sibling;
    Family(current);
    UnderParent(x, current);
    var s := Sibling(current);
    assert !Full(leaves, s);
    FullElsewhere(leaves, x, s);
    FullParent(leaves + {x}, current);
    forall p: Pos ensures p in cache + {current} <==> Full(leaves + {x}, p) {
      ClimbEndFull(leaves, x, current, p);
    }
    forall p: Pos ensures p in bitmap + {current} <==> Root(leaves + {x}, p) {
      ClimbEndFull(leaves, x, current, p);
      ClimbEndFull(leaves, x, current, Parent(p));
      ClimbEndRoots(leaves, x, current, p);
    }
  }

  /** When the climb stops, the nodes that became full are those passed on the way. */
  lemma ClimbEndFull(leaves: set<Pos>, x: Pos, current: Pos, p: Pos)
    requires Under(x, current) && Full(leaves + {x}, current) && !Full(leaves + {x}, Parent(current))
    ensures Full(leaves + {x}, p) <==> Full(leaves, p) || (Under(x, p) && p <= current)
  {
    hide Full;
    if Under(x, p) {
      if p <= current {
        Chain(x, p, current);
        FullDown(leaves + {x}, p, current);
      } else {
        Chain(x, current, p);
        if Full(leaves + {x}, p) { FullDown(leaves + {x}, Parent(current), p); }
        if Full(leaves, p) {
          FullMonotone(leaves, leaves + {x}, p);
          FullDown(leaves + {x}, Parent(current), p);
        }
      }
    } else {
      FullElsewhere(leaves, x, p);
    }
  }

  lemma ClimbEndRoots(leaves: set<Pos>, x: Pos, current: Pos, p: Pos)
    requires Under(x, current) && Full(leaves + {x}, current) && !Full(leaves + {x}, Parent(current))
    ensures Root(leaves + {x}, p) <==> p == current || (Root(leaves, p) && !(Under(p, current) && p != current))
  {
    hide Full;
    Family(current);
    Family(p);
    if p != current {
      if Under(p, current) {
        UnderClosed(p, current);
        FullDown(leaves + {x}, Parent(p), current);
      } else {
        ClimbEndFull(leaves, x, current, p);
        ClimbEndFull(leaves, x, current, Parent(p));
        if Under(x, Parent(p)) && Parent(p) <= current {
          Chain(x, Parent(p), current);
          UnderParent(p, p);
          UnderTransitive(p, Parent(p), current);
        }
        if Under(x, p) && p <= current { Chain(x, p, current); }
      }
    }
  }

  /** The running sums of the weights of `v`. */
  ghost predicate PrefixSums(u: Entries, v: seq<Pos>, cache: seq<nat>) {
    |cache| == |v| && forall i :: 0 <= i < |v| ==> cache[i] == WeightSum(u, v[..i + 1])
  }

  /** A shift read from a cache by rank; a rank beyond a stale cache reads its last entry. */
  function Lookup(bitmap: set<Pos>, cache: seq<nat>, pos: nat): nat
    requires Rank(bitmap, pos) > 0 ==> cache != []
  {
    if bitmap == {} then 0
    else
      var idx := Rank(bitmap, pos);
      if idx == 0 then 0
      else if idx > |cache| then cache[|cache| - 1]
      else cache[idx - 1]
  }

  lemma FreshLookup(u: Entries, bitmap: set<Pos>, cache: seq<nat>, pos: nat)
    requires PrefixSums(u, Ascending(bitmap), cache)
    ensures Rank(bitmap, pos) <= |cache|
    ensures Lookup(bitmap, cache, pos) == WeightSum(u, Ascending(bitmap)[..Rank(bitmap, pos)])
  {
    RankSplits(bitmap, pos);
    if bitmap == {} { RankEmpty(pos); }
  }

  /** With fresh caches, position minus shift is the rank among the positions still there. */
  lemma LookupIsRank(u: Entries, leaves: set<Pos>, bitmap: set<Pos>, cache: seq<nat>, pos: nat)
    requires HoldsRoots(bitmap, leaves) && PrefixSums(u, Ascending(bitmap), cache)
    requires pos > 0 ==> !Compacted(leaves, pos)
    ensures Rank(bitmap, pos) <= |cache|
    ensures CountTo(u, pos) - Lookup(bitmap, cache, pos) == KeptTo(u, leaves, pos)
  {
    hide Compacted, Root, Rank;
    FreshLookup(u, bitmap, cache, pos);
    AscendingLists(bitmap);
    RankSplits(bitmap, pos);
    ShiftedRank(u, leaves, Ascending(bitmap), Rank(bitmap, pos), pos);
  }

  /** The shift at the last root is the shift at every later position. */
  lemma TotalLookup(u: Entries, leaves: set<Pos>, bitmap: set<Pos>, cache: seq<nat>, size: nat)
    requires HoldsRoots(bitmap, leaves) && PrefixSums(u, Ascending(bitmap), cache)
    requires forall r :: r in bitmap ==> r <= size
    ensures Rank(bitmap, Last(bitmap)) <= |cache|
    ensures Lookup(bitmap, cache, Last(bitmap)) == GoneTo(u, leaves, size)
  {
    hide Compacted, Root, Rank;
    var v := Ascending(bitmap);
    AscendingLists(bitmap);
    RankAll(bitmap, Last(bitmap));
    FreshLookup(u, bitmap, cache, Last(bitmap));
    assert v[..|v|] == v;
    forall q: Pos | Last(bitmap) < q <= size ensures !Compacted(leaves, q) {
      if Compacted(leaves, q) {
        var j := LaterRoot(leaves, v, |v|, q);
      }
    }
    if bitmap == {} {
      NothingBefore(u, leaves, v);
    } else {
      RankSplits(bitmap, Last(bitmap));
      GoneAtRoot(u, leaves, v, |v| - 1);
      assert v[|v| - 1] == Last(bitmap);
    }
    NothingGone(u, leaves, Last(bitmap), size);
  }

  /** The greatest element of a bitmap, or zero. */
  function Last(bitmap: set<Pos>): nat {
    if bitmap == {} then 0 else Maximum(bitmap)
  }

  /** The climb through `PathUp` meets every node above a position. */
  lemma {:induction false} PathReaches(p: Pos, r: Pos, last: nat)
    requires Under(p, r) && r <= last
    ensures r in PathUp(p, last)
    decreases r - p
  {
    if p != r {
      UnderClosed(p, r);
      Family(p);
      PathReaches(Parent(p), r, last);
    }
  }

  lemma {:induction false} PathStaysAbove(p: Pos, last: nat, x: Pos)
    requires x in PathUp(p, last)
    ensures Under(p, x)
    decreases last - p
  {
    Family(p);
    if x == p {
      UnderSelf(p);
    } else {
      PathStaysAbove(Parent(p), last, x);
      UnderParent(p, p);
      UnderTransitive(p, Parent(p), x);
    }
  }

  /** A position is pruned exactly when the climb from it meets a root. */
  lemma PathMeetsRoot(leaves: set<Pos>, bitmap: set<Pos>, p: Pos)
    requires HoldsRoots(bitmap, leaves) && bitmap != {}
    ensures Full(leaves, p) <==>
              exists i :: 0 <= i < |PathUp(p, Maximum(bitmap))| && PathUp(p, Maximum(bitmap))[i] in bitmap
    ensures Full(leaves, p) ==> p <= Maximum(bitmap)
  {
    hide Full, PathUp;
    var path := PathUp(p, Maximum(bitmap));
    if Full(leaves, p) {
      var r := RootAbove(leaves, p, Bound(leaves));
      assert r in bitmap;
      PathReaches(p, r, Maximum(bitmap));
    }
    forall i | 0 <= i < |path| && path[i] in bitmap ensures Full(leaves, p) {
      PathStaysAbove(p, Maximum(bitmap), path[i]);
      FullDown(leaves, p, path[i]);
    }
  }

  class PruneList {
    var bitmap: set<Pos>
    var prunedCache: set<Pos>
    var shiftCache: seq<nat>
    var leafShiftCache: seq<nat>
    /** The bitmap as last written to disk. */
    var file: set<Pos>
    /** The leaves pruned so far. */
    ghost var leaves: set<Pos>

    ghost predicate Valid()
      reads this
    {
      && LeavesOnly(leaves)
      && HoldsRoots(bitmap, leaves)
      && HoldsFull(prunedCache, leaves)
      && (bitmap == {} ==> shiftCache == [] && leafShiftCache == [])
    }

    /** The shift caches and the bitmap on disk are those of the present roots. */
    ghost predicate CachesFresh()
      reads this
    {
      && file == bitmap
      && PrefixSums(Nodes, Ascending(bitmap), shiftCache)
      && PrefixSums(Leaves, Ascending(bitmap), leafShiftCache)
    }

    /** Opening a saved bitmap rebuilds exactly the state of the prune list that saved it. */
    constructor Open(saved: set<Pos>, ghost pruned: set<Pos>)
      requires LeavesOnly(pruned) && HoldsRoots(saved, pruned)
      ensures Valid() && CachesFresh()
      ensures bitmap == saved && file == saved && leaves == pruned
    {
      bitmap, file := saved, saved;
      prunedCache, shiftCache, leafShiftCache := {}, [], [];
      leaves := pruned;
      new;
      if saved == {} { NothingFull(pruned); }
      InitCaches();
    }

    method InitCaches()
      requires LeavesOnly(leaves) && HoldsRoots(bitmap, leaves)
      requires bitmap == {} ==> shiftCache == [] && leafShiftCache == [] && HoldsFull(prunedCache, leaves)
      requires file == bitmap
      modifies this`shiftCache, this`leafShiftCache, this`prunedCache
      ensures Valid() && CachesFresh()
    {
      hide HoldsRoots, HoldsFull, LeavesOnly;
      BuildShiftCache();
      BuildLeafShiftCache();
      BuildPrunedCache();
    }

    method Flush()
      requires Valid()
      modifies this`shiftCache, this`leafShiftCache, this`prunedCache, this`file
      ensures Valid() && CachesFresh()
      ensures file == bitmap
      ensures prunedCache == old(prunedCache)
    {
      hide LeavesOnly, PrefixSums;
      file := bitmap;
      InitCaches();
      assert forall p: Pos :: p in prunedCache <==> p in old(prunedCache);
    }

    function GetShift(pos: nat): nat
      requires Rank(bitmap, pos) > 0 ==> shiftCache != []
      reads this
    {
      Lookup(bitmap, shiftCache, pos)
    }

    function GetLeafShift(pos: nat): nat
      requires Rank(bitmap, pos) > 0 ==> leafShiftCache != []
      reads this
    {
      Lookup(bitmap, leafShiftCache, pos)
    }

    function GetTotalShift(): nat
      requires Rank(bitmap, Last(bitmap)) > 0 ==> shiftCache != []
      reads this
    {
      GetShift(Last(bitmap))
    }

    function GetTotalLeafShift(): nat
      requires Rank(bitmap, Last(bitmap)) > 0 ==> leafShiftCache != []
      reads this
    {
      GetLeafShift(Last(bitmap))
    }

    method BuildShiftCache()
      requires bitmap == {} ==> shiftCache == []
      modifies this`shiftCache
      ensures PrefixSums(Nodes, Ascending(bitmap), shiftCache)
    {
      if bitmap == {} {
        return;
      }
      shiftCache := [];
      var v := Iterate(bitmap);
      for i := 0 to |v|
        invariant PrefixSums(Nodes, v[..i], shiftCache)
      {
        hide Weight;
        var pos := v[i];
        PreviousShift(Nodes, bitmap, shiftCache, i);
        var prevShift := GetShift(pos as int - 1);
        var height := BintreePostorderHeight(pos);
        var currShift := 2 * (Pow2(height) - 1);
        NodeWeight(pos);
        shiftCache := shiftCache + [prevShift + currShift];
        NextPrefixSum(Nodes, v, i, shiftCache);
      }
      assert v[..|v|] == v;
    }

    method BuildLeafShiftCache()
      requires bitmap == {} ==> leafShiftCache == []
      modifies this`leafShiftCache
      ensures PrefixSums(Leaves, Ascending(bitmap), leafShiftCache)
    {
      if bitmap == {} {
        return;
      }
      leafShiftCache := [];
      var v := Iterate(bitmap);
      for i := 0 to |v|
        invariant PrefixSums(Leaves, v[..i], leafShiftCache)
      {
        hide Weight;
        var pos := v[i];
        PreviousShift(Leaves, bitmap, leafShiftCache, i);
        var prevShift := GetLeafShift(pos as int - 1);
        var height := BintreePostorderHeight(pos);
        var currShift := if height == 0 then 0 else Pow2(height);
        NodeWeight(pos);
        leafShiftCache := leafShiftCache + [prevShift + currShift];
        NextPrefixSum(Leaves, v, i, leafShiftCache);
      }
      assert v[..|v|] == v;
    }

    /** Every position up to the last root is tested by climbing from it. */
    method BuildPrunedCache()
      requires HoldsRoots(bitmap, leaves)
      requires bitmap == {} ==> HoldsFull(prunedCache, leaves)
      modifies this`prunedCache
      ensures HoldsFull(prunedCache, leaves)
    {
      hide Full, PathUp, HoldsRoots, Root, Maximum;
      if bitmap == {} {
        return;
      }
      var maximum := Maximum(bitmap);
      prunedCache := {};
      for pos: Pos := 1 to maximum + 1
        invariant forall p: Pos :: p in prunedCache <==> p < pos && Full(leaves, p)
      {
        var path := Path(pos, maximum);
        var pruned := exists i | 0 <= i < |path| :: path[i] in bitmap;
        PathMeetsRoot(leaves, bitmap, pos);
        if pruned {
          prunedCache := prunedCache + {pos};
        }
      }
      forall p: Pos ensures p in prunedCache <==> Full(leaves, p) {
        PathMeetsRoot(leaves, bitmap, p);
      }
    }

    /** Adding a leaf, already pruned or not, absorbs every subtree it completes. */
    method Add(pos: Pos)
      requires Valid() && IsLeaf(pos)
      modifies this`bitmap, this`prunedCache, this`leaves
      ensures LeavesOnly(leaves) && HoldsRoots(bitmap, leaves) && HoldsFull(prunedCache, leaves)
      ensures leaves == old(leaves) + {pos}
      ensures bitmap != {}
    {
      hide Full, Climbing, Under, Root, IsLeaf;
      ghost var bound := Bound(leaves + {pos});
      var current := pos;
      ClimbStart(leaves, pos, bitmap, prunedCache);
      while true
        invariant Climbing(leaves, pos, current, bitmap, prunedCache)
        invariant leaves == old(leaves)
        decreases bound - current
      {
        ClimbBound(leaves, pos, current, bitmap, prunedCache, bound);
        var parent, sibling := FamilyOf(current);
        if sibling in bitmap || sibling in prunedCache {
          ClimbUp(leaves, pos, current, bitmap, prunedCache);
          prunedCache := prunedCache + {current};
          bitmap := bitmap - {sibling};
          current := parent;
        } else {
          ClimbEnd(leaves, pos, current, bitmap, prunedCache);
          prunedCache := prunedCache + {current};
          bitmap := bitmap + {current};
          leaves := leaves + {pos};
          break;
        }
      }
    }

    function IsPruned(pos: Pos): bool
      reads this
    {
      pos in prunedCache
    }

    function IsPrunedRoot(pos: Pos): bool
      reads this
    {
      pos in bitmap
    }
  }

  lemma ClimbBound(leaves: set<Pos>, x: Pos, current: Pos, bitmap: set<Pos>, cache: set<Pos>, bound: nat)
    requires Climbing(leaves, x, current, bitmap, cache) && bound == Bound(leaves + {x})
    ensures current <= bound && Parent(current) > current
  {
    FullBound(leaves + {x}, current);
    Family(current);
  }

  /** No roots means nothing was pruned. */
  lemma NothingFull(leaves: set<Pos>)
    requires HoldsRoots({}, leaves)
    ensures HoldsFull({}, leaves)
  {
    forall p: Pos ensures !Full(leaves, p) {
      if Full(leaves, p) {
        var r := RootAbove(leaves, p, Bound(leaves));
      }
    }
  }

  lemma NodeWeight(p: Pos)
    ensures Weight(Nodes, p) == 2 * (Pow2(Height(p)) - 1)
    ensures Weight(Leaves, p) == if Height(p) == 0 then 0 else Pow2(Height(p))
  {
  }

  /** While the cache is filled up to `i`, the shift before the next root is the last entry. */
  lemma PreviousShift(u: Entries, bitmap: set<Pos>, cache: seq<nat>, i: nat)
    requires i < |Ascending(bitmap)| && PrefixSums(u, Ascending(bitmap)[..i], cache)
    ensures Rank(bitmap, Ascending(bitmap)[i] as int - 1) == i
    ensures Lookup(bitmap, cache, Ascending(bitmap)[i] as int - 1) == WeightSum(u, Ascending(bitmap)[..i])
  {
    var v := Ascending(bitmap);
    AscendingLists(bitmap);
    RankSplits(bitmap, v[i] as int - 1);
    var k := Rank(bitmap, v[i] as int - 1);
    assert !(v[i] <= v[i] as int - 1);
    if i > 0 {
      assert v[i - 1] < v[i];
      assert v[..i][..i] == v[..i];
    }
  }

  lemma NextPrefixSum(u: Entries, v: seq<Pos>, i: nat, cache: seq<nat>)
    requires i < |v| && |cache| == i + 1
    requires PrefixSums(u, v[..i], cache[..i])
    requires cache[i] == WeightSum(u, v[..i]) + Weight(u, v[i])
    ensures PrefixSums(u, v[..i + 1], cache)
  {
    hide Weight;
    forall j | 0 <= j < i + 1 ensures cache[j] == WeightSum(u, v[..i + 1][..j + 1]) {
      if j < i {
        assert v[..i + 1][..j + 1] == v[..i][..j + 1];
        assert cache[..i][j] == cache[j];
      } else {
        assert v[..i + 1][..j + 1] == v[..i + 1];
        assert v[..i + 1][..i] == v[..i];
      }
    }
  }

  /** The bitmap is an antichain, and the cache is exactly what lies under it. */
  lemma Canonical(leaves: set<Pos>, bitmap: set<Pos>, cache: set<Pos>)
    requires HoldsRoots(bitmap, leaves) && HoldsFull(cache, leaves)
    ensures forall r, s :: r in bitmap && s in bitmap && Under(r, s) ==> r == s
    ensures forall p: Pos :: p in cache <==> exists r :: r in bitmap && Under(p, r)
  {
    hide Under, Full, Root;
    forall r, s | r in bitmap && s in bitmap && Under(r, s) ensures r == s {
      UnderBounds(r, s);
      if r < s { RootsApart(leaves, r, s); }
    }
    forall p: Pos ensures p in cache <==> exists r :: r in bitmap && Under(p, r) {
      if p in cache {
        var r := RootAbove(leaves, p, Bound(leaves));
        assert r in bitmap;
      }
      forall r | r in bitmap && Under(p, r) ensures p in cache {
        RootIsFull(leaves, r);
        FullDown(leaves, p, r);
      }
    }
  }

  lemma RootIsFull(leaves: set<Pos>, r: Pos)
    requires Root(leaves, r)
    ensures Full(leaves, r)
  {
  }

  lemma UnderBounds(q: Pos, p: Pos)
    requires Under(q, p)
    ensures First(p) <= q <= p
  {
  }

  /** The bitmap and the cache depend on the pruned leaves alone, not on the order of pruning. */
  lemma OneState(leaves: set<Pos>, bitmap: set<Pos>, cache: set<Pos>, bitmap': set<Pos>, cache': set<Pos>)
    requires HoldsRoots(bitmap, leaves) && HoldsFull(cache, leaves)
    requires HoldsRoots(bitmap', leaves) && HoldsFull(cache', leaves)
    ensures bitmap == bitmap' && cache == cache'
  {
    forall p: Pos ensures (p in bitmap <==> p in bitmap') && (p in cache <==> p in cache') {
      assert p in bitmap <==> Root(leaves, p);
      assert p in cache <==> Full(leaves, p);
    }
  }
}
