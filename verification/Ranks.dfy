/**
 Where a position is found in a compacted file. A file holds one entry for each position it
 counts (every node, or every leaf) that is not compacted, in order, so the entry of a
 position is found at its rank among the kept ones. The prune list computes that rank by
 subtracting the weights of the roots up to the position.
 */
module Ranks {
  import opened Binary
  import opened Mmr
  import opened Bitmaps
  import opened Navigation
  import opened Pruning

  /** What a file has entries for. */
  datatype Entries = Nodes | Leaves

  ghost predicate Counted(u: Entries, p: Pos) {
    u.Nodes? || IsLeaf(p)
  }

  /** How many of the first `n` positions are counted. */
  ghost function CountTo(u: Entries, n: nat): nat {
    if u.Nodes? then n else LeafCount(n)
  }

  ghost predicate Kept(u: Entries, leaves: set<Pos>, p: Pos) {
    Counted(u, p) && !Compacted(leaves, p)
  }

  ghost function KeptTo(u: Entries, leaves: set<Pos>, n: nat): nat {
    if n == 0 then 0 else KeptTo(u, leaves, n - 1) + if Kept(u, leaves, n) then 1 else 0
  }

  ghost function GoneTo(u: Entries, leaves: set<Pos>, n: nat): nat {
    if n == 0 then 0
    else GoneTo(u, leaves, n - 1) + if Counted(u, n) && Compacted(leaves, n) then 1 else 0
  }

  lemma LeafCountStep(n: nat)
    requires n > 0
    ensures LeafCount(n) == LeafCount(n - 1) + if IsLeaf(n) then 1 else 0
  {
    LeafCountNext(n - 1);
  }

  lemma CountStep(u: Entries, n: nat)
    requires n > 0
    ensures CountTo(u, n) == CountTo(u, n - 1) + if Counted(u, n) then 1 else 0
  {
    if u.Leaves? { LeafCountStep(n); }
  }

  lemma {:induction false} CountSplits(u: Entries, leaves: set<Pos>, n: nat)
    ensures CountTo(u, n) == KeptTo(u, leaves, n) + GoneTo(u, leaves, n)
  {
    if n > 0 {
      CountStep(u, n);
      CountSplits(u, leaves, n - 1);
    }
  }

  /** The number of entries that pruning the subtree at `p` removes. */
  ghost function Weight(u: Entries, p: Pos): nat {
    match u
    case Nodes => 2 * (Pow2(Height(p)) - 1)
    case Leaves => if Height(p) == 0 then 0 else Pow2(Height(p))
  }

  lemma {:induction false} LeavesBelow(p: Pos)
    ensures LeafCount(p) == LeafCount(First(p) - 1) + Pow2(Height(p))
    decreases p
  {
    hide LeafCount, First, Height, Parent, Sibling, LastLeaf;
    FirstUp(p);
    LeafCountStep(p);
    if !IsLeaf(p) {
      Children(p);
      LeavesBelow(LeftChild(p));
      LeavesBelow(RightChild(p));
    }
  }

  lemma WeightCounts(u: Entries, p: Pos)
    ensures CountTo(u, p - 1) == CountTo(u, First(p) - 1) + Weight(u, p)
  {
    if u.Leaves? {
      LeavesBelow(p);
      LeafCountStep(p);
      FirstUp(p);
    }
  }

  lemma {:induction false} NothingGone(u: Entries, leaves: set<Pos>, a: nat, b: nat)
    requires a <= b
    requires forall q: Pos :: a < q <= b ==> !Compacted(leaves, q)
    ensures GoneTo(u, leaves, b) == GoneTo(u, leaves, a)
    decreases b
  {
    hide Compacted, Counted;
    if a < b { NothingGone(u, leaves, a, b - 1); }
  }

  lemma {:induction false} AllGone(u: Entries, leaves: set<Pos>, a: nat, b: nat)
    requires a <= b
    requires forall q: Pos :: a < q <= b ==> Compacted(leaves, q)
    ensures GoneTo(u, leaves, b) - GoneTo(u, leaves, a) == CountTo(u, b) - CountTo(u, a)
    decreases b
  {
    hide Compacted, Counted, CountTo;
    if a < b {
      AllGone(u, leaves, a, b - 1);
      CountStep(u, b);
    }
  }

  /** `v` lists the roots of `leaves` in ascending order. */
  ghost predicate ListsRoots(leaves: set<Pos>, v: seq<Pos>) {
    Ascends(v) && forall p: Pos :: p in v <==> Root(leaves, p)
  }

  ghost function WeightSum(u: Entries, v: seq<Pos>): nat {
    if v == [] then 0 else WeightSum(u, v[..|v| - 1]) + Weight(u, v[|v| - 1])
  }

  /** Whatever is compacted in the gap before `v[k]`, or after the last root, lies under a later root. */
  lemma LaterRoot(leaves: set<Pos>, v: seq<Pos>, k: nat, q: Pos) returns (j: nat)
    requires ListsRoots(leaves, v) && k <= |v| && Compacted(leaves, q)
    requires k > 0 ==> v[k - 1] < q
    ensures k <= j < |v| && Under(q, v[j]) && q != v[j]
  {
    CompactedIsPrunedNotRoot(leaves, q);
    var r := RootAbove(leaves, q, Bound(leaves));
    assert r in v;
    j :| 0 <= j < |v| && v[j] == r;
  }

  /** Between one root and the subtree of the next, nothing is compacted. */
  lemma GapIsKept(leaves: set<Pos>, v: seq<Pos>, k: nat, q: Pos)
    requires ListsRoots(leaves, v) && k < |v|
    requires q < First(v[k]) && (k > 0 ==> v[k - 1] < q)
    ensures !Compacted(leaves, q)
  {
    hide Full, Compacted, First;
    if Compacted(leaves, q) {
      var j := LaterRoot(leaves, v, k, q);
      assert v[j] in v && v[k] in v;
      FirstUp(v[k]);
      if j > k { RootsApart(leaves, v[k], v[j]); }
    }
  }

  /** A root's subtree takes its weight out of the file and leaves the root. */
  lemma GoneBelowRoot(u: Entries, leaves: set<Pos>, r: Pos)
    requires Root(leaves, r)
    ensures GoneTo(u, leaves, r) == GoneTo(u, leaves, First(r) - 1) + Weight(u, r)
  {
    hide Full, Compacted, First, Weight, CountTo, Counted;
    FirstUp(r);
    forall q: Pos | First(r) - 1 < q <= r - 1 ensures Compacted(leaves, q) {
      CompactedUnder(leaves, r, q);
    }
    AllGone(u, leaves, First(r) - 1, r - 1);
    WeightCounts(u, r);
    CompactedIsPrunedNotRoot(leaves, r);
  }

  lemma {:induction false} GoneAtRoot(u: Entries, leaves: set<Pos>, v: seq<Pos>, k: nat)
    requires ListsRoots(leaves, v) && k < |v|
    ensures GoneTo(u, leaves, v[k]) == WeightSum(u, v[..k + 1])
    decreases k
  {
    hide Full, Compacted, First, Weight, Under, Root, GoneTo;
    var r := v[k];
    assert r in v;
    var before := if k > 0 then v[k - 1] else 0;
    if k > 0 {
      assert before in v;
      GoneAtRoot(u, leaves, v, k - 1);
      RootsApart(leaves, before, r);
    } else {
      NothingBefore(u, leaves, v);
    }
    forall q: Pos | before < q <= First(r) - 1 ensures !Compacted(leaves, q) {
      GapIsKept(leaves, v, k, q);
    }
    NothingGone(u, leaves, before, First(r) - 1);
    GoneBelowRoot(u, leaves, r);
    assert v[..k + 1][..k] == v[..k];
  }

  lemma NothingBefore(u: Entries, leaves: set<Pos>, v: seq<Pos>)
    ensures GoneTo(u, leaves, 0) == WeightSum(u, v[..0])
  {
  }

  /** The weights of the roots up to a position that is still there add up to the entries gone before it. */
  lemma GoneBefore(u: Entries, leaves: set<Pos>, v: seq<Pos>, k: nat, pos: nat)
    requires ListsRoots(leaves, v) && k <= |v|
    requires k > 0 ==> v[k - 1] <= pos
    requires k < |v| ==> pos < v[k]
    requires pos > 0 ==> !Compacted(leaves, pos)
    ensures GoneTo(u, leaves, pos) == WeightSum(u, v[..k])
  {
    hide Full, Compacted, First, GoneTo, WeightSum;
    var before := if k > 0 then v[k - 1] else 0;
    forall q: Pos | before < q <= pos ensures !Compacted(leaves, q) {
      if Compacted(leaves, q) {
        var j := LaterRoot(leaves, v, k, q);
        assert v[j] in v;
        CompactedUnder(leaves, v[j], pos);
      }
    }
    NothingGone(u, leaves, before, pos);
    if k > 0 { GoneAtRoot(u, leaves, v, k - 1); } else { NothingBefore(u, leaves, v); }
  }

  /** The file entry of a kept position is found by subtracting the weights of the roots up to it. */
  lemma ShiftedRank(u: Entries, leaves: set<Pos>, v: seq<Pos>, k: nat, pos: nat)
    requires ListsRoots(leaves, v) && k <= |v|
    requires k > 0 ==> v[k - 1] <= pos
    requires k < |v| ==> pos < v[k]
    requires pos > 0 ==> !Compacted(leaves, pos)
    ensures CountTo(u, pos) - WeightSum(u, v[..k]) == KeptTo(u, leaves, pos)
  {
    GoneBefore(u, leaves, v, k, pos);
    CountSplits(u, leaves, pos);
  }

  lemma {:induction false} KeptToMonotone(u: Entries, leaves: set<Pos>, a: nat, b: nat)
    requires a <= b
    ensures KeptTo(u, leaves, a) <= KeptTo(u, leaves, b)
    ensures a < b && Kept(u, leaves, b) ==> KeptTo(u, leaves, a) < KeptTo(u, leaves, b)
    decreases b
  {
    hide Kept;
    if a < b { KeptToMonotone(u, leaves, a, b - 1); }
  }
}
