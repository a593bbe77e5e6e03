/**
 The second climb: from the leaves to be pruned, the positions whose entries must be dropped
 from the files. It never consults the new prune list, and must still arrive at exactly the
 positions that the new prune list will report as compacted.
 */
module RemovalClimb {
  import opened Mmr
  import opened Bitmaps
  import opened Navigation
  import opened Pruning
  import opened CompactFiles
  import opened PruneLists

  /** Nodes that become full when `removed` is pruned on top of `leaves`, and old roots they absorb. */
  ghost predicate Marked(leaves: set<Pos>, removed: set<Pos>, q: Pos) {
    || (Full(leaves + removed, q) && !Full(leaves, q))
    || (Root(leaves, q) && Full(leaves + removed, Parent(q)))
  }

  ghost predicate MarksExactly(leaves: set<Pos>, removed: set<Pos>, expanded: set<Pos>) {
    forall q: Pos :: q in expanded <==> Marked(leaves, removed, q)
  }

  /** Halfway through the climb from `x`, which has reached `current`. */
  ghost predicate Expanding(leaves: set<Pos>, removed: set<Pos>, x: Pos, current: Pos, expanded: set<Pos>) {
    && Under(x, current)
    && Full(leaves + removed + {x}, current)
    && forall q: Pos :: q in expanded <==>
         || Marked(leaves, removed, q)
         || (Under(x, q) && q <= current)
         || (Root(leaves, q) && Under(x, Parent(q)) && Parent(q) <= current)
  }

  lemma NotFullAbove(leaves: set<Pos>, x: Pos, q: Pos)
    requires IsLeaf(x) && x !in leaves && Under(x, q)
    ensures !Full(leaves, q)
  {
  }

  lemma ExpandStart(leaves: set<Pos>, removed: set<Pos>, x: Pos, expanded: set<Pos>)
    requires IsLeaf(x) && MarksExactly(leaves, removed, expanded)
    ensures Expanding(leaves, removed, x, x, expanded + {x})
  {
    hide Full, Marked;
    UnderSelf(x);
    FullLeaf(leaves + removed + {x}, x);
    forall q: Pos ensures Under(x, q) && q <= x <==> q == x {
      FirstUp(q);
    }
    forall q: Pos ensures !(Under(x, Parent(q)) && Parent(q) <= x) {
      if Parent(q) == x { Family(q); }
    }
  }

  lemma ExpandUp(leaves: set<Pos>, removed: set<Pos>, x: Pos, current: Pos, expanded: set<Pos>)
    requires IsLeaf(x) && x !in leaves && Expanding(leaves, removed, x, current, expanded)
    requires Root(leaves, Sibling(current)) || Sibling(current) in expanded
    ensures Expanding(leaves, removed, x, Parent(current),
                      if Root(leaves, Sibling(current)) then expanded + {Sibling(current)} + {Parent(current)}
                      else expanded + {Parent(current)})
  {
    hide Full, Under, Parent, Sibling;
    var s, parent := Sibling(current), Parent(current);
    var all := leaves + removed + {x};
    Family(current);
    UnderParent(x, current);
    assert Full(all, s) by {
      if Full(leaves, s) { FullMonotone(leaves, all, s); } else { FullMonotone(leaves + removed, all, s); }
    }
    FullParent(all, current);
    var expanded' := if Root(leaves, s) then expanded + {s} + {parent} else expanded + {parent};
    forall q: Pos ensures q in expanded' <==>
         || Marked(leaves, removed, q)
         || (Under(x, q) && q <= parent)
         || (Root(leaves, q) && Under(x, Parent(q)) && Parent(q) <= parent)
    {
      ExpandUpAt(leaves, x, current, q);
    }
  }

  lemma ExpandUpAt(leaves: set<Pos>, x: Pos, current: Pos, q: Pos)
    requires IsLeaf(x) && x !in leaves && Under(x, current)
    ensures Under(x, q) && q <= Parent(current) <==> (Under(x, q) && q <= current) || q == Parent(current)
    ensures Root(leaves, q) && Under(x, Parent(q)) && Parent(q) <= Parent(current) <==>
            || (Root(leaves, q) && Under(x, Parent(q)) && Parent(q) <= current)
            || (Root(leaves, q) && q == Sibling(current))
  {
    hide Full;
    Family(current);
    Family(q);
    UnderParent(x, current);
    ClimbUpCache(leaves, x, current, q);
    ClimbUpCache(leaves, x, current, Parent(q));
    if Root(leaves, q) && Parent(q) == Parent(current) {
      NotFullAbove(leaves, x, current);
      SameParent(q, current);
    }
  }

  lemma SameParent(p: Pos, q: Pos)
    requires Parent(p) == Parent(q)
    ensures p == q || p == Sibling(q)
  {
    Family(p);
    Family(q);
  }

  lemma ExpandEnd(leaves: set<Pos>, removed: set<Pos>, x: Pos, current: Pos, expanded: set<Pos>)
    requires IsLeaf(x) && x !in leaves && Expanding(leaves, removed, x, current, expanded)
    requires !Root(leaves, Sibling(current)) && Sibling(current) !in expanded
    ensures MarksExactly(leaves, removed + {x}, expanded)
  {
    hide Full, Under, Parent, Sibling;
    var s, parent := Sibling(current), Parent(current);
    Family(current);
    UnderParent(x, current);
    NotFullAbove(leaves, x, parent);
    assert !Full(leaves + removed, s);
    assert leaves + (removed + {x}) == leaves + removed + {x};
    FullElsewhere(leaves + removed, x, s);
    FullParent(leaves + removed + {x}, current);
    forall q: Pos ensures q in expanded <==> Marked(leaves, removed + {x}, q) {
      ClimbEndFull(leaves + removed, x, current, q);
      ClimbEndFull(leaves + removed, x, current, Parent(q));
      if Under(x, q) { NotFullAbove(leaves, x, q); }
    }
  }

  lemma ExpandBound(leaves: set<Pos>, removed: set<Pos>, x: Pos, current: Pos, expanded: set<Pos>, bound: nat)
    requires Expanding(leaves, removed, x, current, expanded) && bound == Bound(leaves + removed + {x})
    ensures current <= bound && Parent(current) > current
  {
    FullBound(leaves + removed + {x}, current);
    Family(current);
  }

  /** A leaf climbs as long as its sibling is an old root or has been marked before. */
  method ExpandFrom(pruneList: PruneList, x: Pos, ghost done: set<Pos>, marked: set<Pos>) returns (expanded: set<Pos>)
    requires HoldsRoots(pruneList.bitmap, pruneList.leaves)
    requires IsLeaf(x) && x !in pruneList.leaves && MarksExactly(pruneList.leaves, done, marked)
    ensures MarksExactly(pruneList.leaves, done + {x}, expanded)
  {
    hide *;
    ghost var leaves := pruneList.leaves;
    ghost var bound := Bound(leaves + done + {x});
    ExpandStart(leaves, done, x, marked);
    expanded := marked + {x};
    var current := x;
    while true
      invariant Expanding(leaves, done, x, current, expanded)
      decreases bound - current
    {
      ExpandBound(leaves, done, x, current, expanded, bound);
      var parent, sibling := FamilyOf(current);
      var siblingPruned := sibling in pruneList.bitmap;
      RootTest(pruneList.bitmap, leaves, sibling);
      if siblingPruned || sibling in expanded {
        ExpandUp(leaves, done, x, current, expanded);
      } else {
        ExpandEnd(leaves, done, x, current, expanded);
      }
      if siblingPruned {
        expanded := expanded + {sibling};
      }
      if siblingPruned || sibling in expanded {
        expanded := expanded + {parent};
        current := parent;
      } else {
        break;
      }
    }
  }

  lemma RootTest(bitmap: set<Pos>, leaves: set<Pos>, p: Pos)
    requires HoldsRoots(bitmap, leaves)
    ensures p in bitmap <==> Root(leaves, p)
  {
  }

  method Expand(pruneList: PruneList, leafPosToRm: set<Pos>) returns (expanded: set<Pos>)
    requires HoldsRoots(pruneList.bitmap, pruneList.leaves)
    requires forall x :: x in leafPosToRm ==> IsLeaf(x) && x !in pruneList.leaves
    ensures MarksExactly(pruneList.leaves, leafPosToRm, expanded)
  {
    hide *;
    var v := Iterate(leafPosToRm);
    AscendingLists(leafPosToRm);
    expanded := {};
    ghost var done: set<Pos> := {};
    MarkNone(pruneList.leaves);
    for i := 0 to |v|
      invariant done == set x | x in v[..i]
      invariant MarksExactly(pruneList.leaves, done, expanded)
    {
      assert v[i] in v;
      expanded := ExpandFrom(pruneList, v[i], done, expanded);
      done := done + {v[i]};
      assert v[..i + 1] == v[..i] + [v[i]];
    }
    assert done == leafPosToRm by { assert v[..|v|] == v; }
  }

  lemma MarkNone(leaves: set<Pos>)
    ensures MarksExactly(leaves, {}, {})
  {
    assert leaves + {} == leaves;
  }

  /** Marked nodes other than the roots of the marked subtrees. */
  method RemovedExclRoots(removed: set<Pos>) returns (r: set<Pos>)
    ensures forall q: Pos :: q in r <==> q in removed && Parent(q) in removed
  {
    hide *;
    var v := Iterate(removed);
    AscendingLists(removed);
    r := {};
    for i := 0 to |v|
      invariant forall q: Pos :: q in r <==> q in v[..i] && Parent(q) in removed
    {
      var parent, _ := FamilyOf(v[i]);
      assert v[..i + 1] == v[..i] + [v[i]];
      if parent in removed {
        r := r + {v[i]};
      }
    }
    assert v[..|v|] == v;
  }

  /** Without its roots, what the climb marked is what the new prune list compacts and the old one did not. */
  lemma MarksAreNewlyCompacted(leaves: set<Pos>, removed: set<Pos>, expanded: set<Pos>, gone: set<Pos>)
    requires MarksExactly(leaves, removed, expanded)
    requires forall q: Pos :: q in gone <==> q in expanded && Parent(q) in expanded
    ensures NewlyCompacted(leaves, leaves + removed, gone)
  {
    hide Full;
    forall q: Pos ensures q in gone <==> Compacted(leaves + removed, q) && !Compacted(leaves, q) {
      FullParent(leaves, q);
      FullParent(leaves + removed, q);
    }
  }

  /** The positions to drop, from the leaves to be pruned. */
  method PosToRm(pruneList: PruneList, leafPosToRm: set<Pos>) returns (posToRm: set<Pos>)
    requires pruneList.Valid()
    requires forall x :: x in leafPosToRm ==> IsLeaf(x) && x !in pruneList.leaves
    ensures NewlyCompacted(pruneList.leaves, pruneList.leaves + leafPosToRm, posToRm)
  {
    hide NewlyCompacted, MarksExactly, HoldsRoots, HoldsFull, LeavesOnly;
    var expanded := Expand(pruneList, leafPosToRm);
    posToRm := RemovedExclRoots(expanded);
    MarksAreNewlyCompacted(pruneList.leaves, leafPosToRm, expanded, posToRm);
  }
}
