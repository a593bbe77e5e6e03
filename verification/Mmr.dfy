/**
 The shape of a Merkle mountain range: positions are numbered from 1 in postorder, so a
 position is fixed by the index of the rightmost leaf below it and its height, and the
 positions of a subtree are the interval that ends at its root.
 */
module Mmr {
  import opened Binary

  type Pos = p: int | p >= 1 witness 1

  /** The number of positions taken by the first `n` leaves and the parents they complete. */
  function Size(n: nat): nat {
    PopCountBound(n);
    2 * n - PopCount(n)
  }

  function LeafPos(n: nat): Pos {
    Size(n) + 1
  }

  datatype Coord = Coord(leaf: nat, height: nat)

  predicate ValidCoord(c: Coord) {
    c.height <= TrailingOnes(c.leaf)
  }

  function PosOf(c: Coord): Pos {
    Size(c.leaf) + 1 + c.height
  }

  /** The coordinates of position `p`. */
  ghost function CoordOf(p: Pos): (c: Coord)
    ensures ValidCoord(c) && PosOf(c) == p
  {
    CoordExists(p);
    var c :| ValidCoord(c) && PosOf(c) == p;
    c
  }

  lemma CoordExists(p: Pos)
    ensures exists c :: ValidCoord(c) && PosOf(c) == p
  {
    var c := CoordSearch(p);
  }

  /** Each position completes a parent if it can, and starts a leaf otherwise. */
  lemma {:induction false} CoordSearch(p: Pos) returns (c: Coord)
    ensures ValidCoord(c) && PosOf(c) == p
    decreases p
  {
    if p == 1 {
      c := Coord(0, 0);
    } else {
      c := CoordSearch(p - 1);
      SizeSucc(c.leaf);
      c := if c.height < TrailingOnes(c.leaf) then Coord(c.leaf, c.height + 1) else Coord(c.leaf + 1, 0);
    }
  }

  lemma SizeSucc(n: nat)
    ensures Size(n + 1) == Size(n) + 1 + TrailingOnes(n)
  {
    PopCountSucc(n);
  }

  lemma {:induction false} SizeMonotone(m: nat, n: nat)
    requires m <= n
    ensures Size(m) + (n - m) <= Size(n)
    decreases n
  {
    if m < n {
      SizeMonotone(m, n - 1);
      SizeSucc(n - 1);
    }
  }

  /** Coordinates order positions: a later rightmost leaf is a later position. */
  lemma CoordOrder(c: Coord, d: Coord)
    requires ValidCoord(c) && ValidCoord(d) && c.leaf < d.leaf
    ensures PosOf(c) <= Size(d.leaf)
  {
    SizeSucc(c.leaf);
    SizeMonotone(c.leaf + 1, d.leaf);
  }

  lemma CoordUnique(c: Coord, d: Coord)
    requires ValidCoord(c) && ValidCoord(d) && PosOf(c) == PosOf(d)
    ensures c == d
  {
    if c.leaf < d.leaf {
      CoordOrder(c, d);
    } else if d.leaf < c.leaf {
      CoordOrder(d, c);
    }
  }

  lemma CoordAt(c: Coord, p: Pos)
    requires ValidCoord(c) && PosOf(c) == p
    ensures CoordOf(p) == c
  {
    CoordUnique(c, CoordOf(p));
  }

  ghost function Height(p: Pos): nat {
    CoordOf(p).height
  }

  /** Index of the rightmost leaf below `p`. */
  ghost function LastLeaf(p: Pos): nat {
    CoordOf(p).leaf
  }

  ghost predicate IsLeaf(p: Pos) {
    Height(p) == 0
  }

  ghost predicate IsRight(p: Pos) {
    Height(p) < TrailingOnes(LastLeaf(p))
  }

  ghost function Parent(p: Pos): Pos {
    if IsRight(p) then p + 1 else p + Pow2(Height(p) + 1)
  }

  ghost function Sibling(p: Pos): Pos {
    SiblingPositive(p);
    if IsRight(p) then p + 1 - Pow2(Height(p) + 1) else p + Pow2(Height(p) + 1) - 1
  }

  /** The first position of the subtree rooted at `p`. */
  ghost function First(p: Pos): Pos {
    FirstPositive(p);
    p + 2 - Pow2(Height(p) + 1)
  }

  /** `q` lies in the subtree rooted at `p`. */
  ghost predicate Under(q: Pos, p: Pos) {
    First(p) <= q <= p
  }

  lemma SiblingPositive(p: Pos)
    ensures IsRight(p) ==> p + 1 - Pow2(Height(p) + 1) >= 1
  {
    if IsRight(p) {
      var c := CoordOf(p);
      ClearTrailingOne(c.leaf, c.height);
      PopCountBound(c.leaf - Pow2(c.height));
    }
  }

  lemma {:induction false} RunBelow(n: nat, h: nat)
    requires h <= TrailingOnes(n)
    ensures Pow2(h) - 1 <= n
    ensures Size(n) + h >= Pow2(h + 1) - 2
    ensures PopCount(n) >= h
    decreases h
  {
    if h > 0 {
      RunBelow(n / 2, h - 1);
      PopCountBound(n / 2);
    } else {
      PopCountBound(n);
    }
  }

  lemma FirstPositive(p: Pos)
    ensures p + 2 - Pow2(Height(p) + 1) >= 1
  {
    RunBelow(LastLeaf(p), Height(p));
  }

  lemma LeafAt(n: nat)
    ensures IsLeaf(LeafPos(n)) && LastLeaf(LeafPos(n)) == n
  {
    CoordAt(Coord(n, 0), LeafPos(n));
  }

  lemma LeafOrder(m: nat, n: nat)
    requires m < n
    ensures LeafPos(m) < LeafPos(n)
  {
    SizeMonotone(m, n);
  }

  lemma RightNodeFamily(n: nat, h: nat)
    requires h < TrailingOnes(n)
    ensures Pow2(h) <= n
    ensures PosOf(Coord(n, h + 1)) == PosOf(Coord(n, h)) + 1
    ensures PosOf(Coord(n - Pow2(h), h)) == PosOf(Coord(n, h)) + 1 - Pow2(h + 1)
    ensures TrailingOnes(n - Pow2(h)) == h
  {
    ClearTrailingOne(n, h);
  }

  lemma LeftNodeFamily(n: nat, h: nat, m: nat)
    requires h == TrailingOnes(n) && m == n + Pow2(h)
    ensures PosOf(Coord(m, h + 1)) == PosOf(Coord(n, h)) + Pow2(h + 1)
    ensures PosOf(Coord(m, h)) == PosOf(Coord(n, h)) + Pow2(h + 1) - 1
    ensures TrailingOnes(m) > h
  {
    SetLowestZero(n);
  }

  lemma RightCoords(p: Pos)
    requires IsRight(p)
    ensures Pow2(Height(p)) <= LastLeaf(p)
    ensures CoordOf(Parent(p)) == Coord(LastLeaf(p), Height(p) + 1)
    ensures CoordOf(Sibling(p)) == Coord(LastLeaf(p) - Pow2(Height(p)), Height(p))
    ensures !IsRight(Sibling(p))
  {
    var n, h := LastLeaf(p), Height(p);
    RightNodeFamily(n, h);
    CoordAt(Coord(n, h + 1), Parent(p));
    CoordAt(Coord(n - Pow2(h), h), Sibling(p));
  }

  lemma LeftCoords(p: Pos)
    requires !IsRight(p)
    ensures CoordOf(Parent(p)) == Coord(LastLeaf(p) + Pow2(Height(p)), Height(p) + 1)
    ensures CoordOf(Sibling(p)) == Coord(LastLeaf(p) + Pow2(Height(p)), Height(p))
    ensures IsRight(Sibling(p))
  {
    var n, h := LastLeaf(p), Height(p);
    var m := n + Pow2(h);
    LeftNodeFamily(n, h, m);
    CoordAt(Coord(m, h + 1), Parent(p));
    CoordAt(Coord(m, h), Sibling(p));
  }

  /** A node and its sibling are the two children of their common parent. */
  lemma Family(p: Pos)
    ensures Parent(p) > p
    ensures Height(Parent(p)) == Height(p) + 1
    ensures Height(Sibling(p)) == Height(p)
    ensures Parent(Sibling(p)) == Parent(p)
    ensures Sibling(Sibling(p)) == p
    ensures IsRight(p) <==> !IsRight(Sibling(p))
    ensures IsRight(p) ==> Parent(p) == p + 1 && First(p) == Sibling(p) + 1 && First(Sibling(p)) == First(Parent(p))
    ensures !IsRight(p) ==> Parent(p) == Sibling(p) + 1 && First(Sibling(p)) == p + 1 && First(p) == First(Parent(p))
  {
    if IsRight(p) { RightCoords(p); } else { LeftCoords(p); }
    var s := Sibling(p);
    assert Height(s) == Height(p);
    assert Height(Parent(p)) == Height(p) + 1;
    assert Pow2(Height(p) + 2) == 2 * Pow2(Height(p) + 1);
  }

  /** Children of an inner node. */
  ghost function RightChild(p: Pos): Pos
    requires !IsLeaf(p)
  {
    assert p > 1 by { FirstPositive(p); assert Pow2(Height(p) + 1) >= 4; }
    p - 1
  }

  ghost function LeftChild(p: Pos): Pos
    requires !IsLeaf(p)
  {
    FirstPositive(p);
    assert Pow2(Height(p) + 1) == 2 * Pow2(Height(p)) && Pow2(Height(p)) >= 2;
    p - Pow2(Height(p))
  }

  lemma RightChildCoord(p: Pos)
    requires !IsLeaf(p)
    ensures Height(RightChild(p)) == Height(p) - 1 && IsRight(RightChild(p))
    ensures Sibling(RightChild(p)) == LeftChild(p)
  {
    var c := CoordOf(p);
    CoordAt(Coord(c.leaf, c.height - 1), RightChild(p));
  }

  lemma Children(p: Pos)
    requires !IsLeaf(p)
    ensures Height(RightChild(p)) == Height(p) - 1 && Height(LeftChild(p)) == Height(p) - 1
    ensures Parent(RightChild(p)) == p && Parent(LeftChild(p)) == p
    ensures Sibling(RightChild(p)) == LeftChild(p) && Sibling(LeftChild(p)) == RightChild(p)
    ensures First(LeftChild(p)) == First(p) && First(RightChild(p)) == LeftChild(p) + 1
  {
    RightChildCoord(p);
    Family(RightChild(p));
  }

  lemma FirstUp(p: Pos)
    ensures First(p) <= p
    ensures IsLeaf(p) <==> First(p) == p
  {
    if !IsLeaf(p) { assert Pow2(Height(p) + 1) >= 4; }
  }

  /** Subtrees are nested or apart: below `p` everything stays below `p`, and so do parents other than `p`'s own. */
  lemma {:induction false} UnderClosed(q: Pos, p: Pos)
    requires Under(q, p)
    ensures First(p) <= First(q)
    ensures Height(q) <= Height(p)
    ensures q != p ==> Under(Parent(q), p) && Under(Sibling(q), p) && Height(q) < Height(p)
    decreases p
  {
    if q != p {
      FirstUp(p);
      Children(p);
      var l, r := LeftChild(p), RightChild(p);
      if q <= l { UnderClosed(q, l); } else { UnderClosed(q, r); }
    }
  }

  lemma UnderTransitive(q: Pos, m: Pos, p: Pos)
    requires Under(q, m) && Under(m, p)
    ensures Under(q, p)
  {
    UnderClosed(m, p);
  }

  /** Being below the parent is being below one of the two children, or the parent itself. */
  lemma UnderParent(q: Pos, p: Pos)
    ensures Under(q, Parent(p)) <==> Under(q, p) || Under(q, Sibling(p)) || q == Parent(p)
    ensures !(Under(q, p) && Under(q, Sibling(p)))
    ensures Under(Parent(p), p) == Under(Parent(p), Sibling(p)) == false
    ensures Under(p, Parent(p))
  {
    Family(p);
    FirstUp(p);
    FirstUp(Sibling(p));
  }

  lemma UnderSelf(p: Pos)
    ensures Under(p, p)
  {
    FirstUp(p);
  }

  /** The rightmost leaf below `p`, by position. */
  ghost function LastLeafPos(p: Pos): Pos {
    LeafPos(LastLeaf(p))
  }

  lemma LastLeafUnder(p: Pos)
    ensures LastLeafPos(p) == p - Height(p)
    ensures IsLeaf(LastLeafPos(p)) && Under(LastLeafPos(p), p)
    ensures p <= 2 * LastLeafPos(p)
  {
    LeafAt(LastLeaf(p));
    Pow2Exceeds(Height(p));
    assert Pow2(Height(p) + 1) == 2 * Pow2(Height(p));
    FirstPositive(p);
  }
}
