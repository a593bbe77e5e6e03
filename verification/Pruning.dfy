/**
 What it means for positions to be pruned, given the set of leaves that have been pruned: a
 node is full once every leaf below it is pruned, the full nodes without a full parent are the
 roots a prune list keeps, and everything strictly below a root is compacted away.
 */
module Pruning {
  import opened Mmr

  ghost predicate LeavesOnly(leaves: set<Pos>) {
    forall q :: q in leaves ==> IsLeaf(q)
  }

  ghost predicate Full(leaves: set<Pos>, p: Pos) {
    forall q: Pos :: Under(q, p) && IsLeaf(q) ==> q in leaves
  }

  ghost predicate Root(leaves: set<Pos>, p: Pos) {
    Full(leaves, p) && !Full(leaves, Parent(p))
  }

  ghost predicate Compacted(leaves: set<Pos>, p: Pos) {
    Full(leaves, Parent(p))
  }

  lemma FullLeaf(leaves: set<Pos>, p: Pos)
    requires IsLeaf(p)
    ensures Full(leaves, p) <==> p in leaves
  {
    hide First, Height;
    FirstUp(p);
    assert Under(p, p);
  }

  lemma FullDown(leaves: set<Pos>, q: Pos, p: Pos)
    requires Full(leaves, p) && Under(q, p)
    ensures Full(leaves, q)
  {
    forall x: Pos | Under(x, q) && IsLeaf(x) ensures x in leaves {
      UnderTransitive(x, q, p);
    }
  }

  /** A parent is full exactly when both children are. */
  lemma FullParent(leaves: set<Pos>, p: Pos)
    ensures Full(leaves, Parent(p)) <==> Full(leaves, p) && Full(leaves, Sibling(p))
  {
    Family(p);
    UnderParent(p, p);
    UnderParent(Sibling(p), p);
    UnderSelf(Sibling(p));
    if Full(leaves, Parent(p)) {
      FullDown(leaves, p, Parent(p));
      FullDown(leaves, Sibling(p), Parent(p));
    }
    if Full(leaves, p) && Full(leaves, Sibling(p)) {
      forall q: Pos | Under(q, Parent(p)) && IsLeaf(q) ensures q in leaves {
        UnderParent(q, p);
      }
    }
  }

  /** Compacted is what the prune list tests: pruned, but not a root. */
  lemma CompactedIsPrunedNotRoot(leaves: set<Pos>, p: Pos)
    ensures Compacted(leaves, p) <==> Full(leaves, p) && !Root(leaves, p)
  {
    FullParent(leaves, p);
  }

  lemma FullBound(leaves: set<Pos>, p: Pos)
    requires Full(leaves, p)
    ensures LastLeafPos(p) in leaves && p <= 2 * LastLeafPos(p)
  {
    LastLeafUnder(p);
  }

  lemma FullMonotone(small: set<Pos>, large: set<Pos>, p: Pos)
    requires small <= large && Full(small, p)
    ensures Full(large, p)
  {
  }

  /** Pruning one leaf changes nothing in subtrees that do not hold it. */
  lemma FullElsewhere(leaves: set<Pos>, x: Pos, p: Pos)
    requires !Under(x, p)
    ensures Full(leaves + {x}, p) <==> Full(leaves, p)
  {
  }

  /** Every full node lies under a root. */
  lemma RootAbove(leaves: set<Pos>, p: Pos, bound: nat) returns (r: Pos)
    requires Full(leaves, p)
    requires forall q :: q in leaves ==> 2 * q <= bound
    ensures Root(leaves, r) && Under(p, r) && r <= bound
    decreases bound - p
  {
    FullBound(leaves, p);
    if Full(leaves, Parent(p)) {
      Family(p);
      FullBound(leaves, Parent(p));
      r := RootAbove(leaves, Parent(p), bound);
      UnderParent(p, p);
      UnderTransitive(p, Parent(p), r);
    } else {
      r := p;
      UnderSelf(p);
    }
  }

  /** Below a root nothing else is a root: roots are pairwise apart. */
  lemma RootsApart(leaves: set<Pos>, r: Pos, s: Pos)
    requires Root(leaves, r) && Root(leaves, s) && r < s
    ensures r < First(s)
  {
    if First(s) <= r {
      UnderClosed(r, s);
      FullDown(leaves, Parent(r), s);
    }
  }

  /** Below a root everything but the root is compacted. */
  lemma CompactedUnder(leaves: set<Pos>, r: Pos, q: Pos)
    requires Full(leaves, r) && Under(q, r) && q != r
    ensures Compacted(leaves, q)
  {
    UnderClosed(q, r);
    FullDown(leaves, Parent(q), r);
  }

  /** A size is whole when the next position is a leaf: every parent that can be completed is. */
  ghost predicate WholeSize(size: nat) {
    IsLeaf(size + 1)
  }

  /** In a range of whole size, a node whose leaves are all inside is inside itself. */
  lemma WholeSizeHoldsParents(size: nat, p: Pos)
    requires WholeSize(size)
    requires LastLeafPos(p) <= size
    ensures p <= size
  {
    hide Height, LastLeafPos, Under;
    LastLeafUnder(p);
    if p > size { RunAbove(p, size + 1); }
  }

  /** The positions after the last leaf of a subtree are inner nodes. */
  lemma RunAbove(p: Pos, q: Pos)
    requires p - Height(p) < q <= p
    ensures Height(q) == Height(p) - (p - q)
  {
    CoordAt(Coord(LastLeaf(p), Height(p) - (p - q)), q);
  }
}
