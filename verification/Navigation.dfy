/**
 The position arithmetic of the range: loops over peak sizes and peak bitmaps, proved
 against the tree shape of module Mmr. `1 << k` is a power of two, `x & (1 << k)` a bit test
 by division, and `ALL_ONES >> x.leading_zeros()` is the all-ones word as long as `x`.
 */
module Navigation {
  import opened Binary
  import opened Mmr

  /**
   What is known after the tree sizes above `2^k - 1` have been tried on `size`: the bits
   chosen so far, and a remainder too small for another tree of those sizes.
   */
  ghost predicate Greedy(size: nat, k: nat, bitmap: nat, left: int) {
    && 0 <= left <= 2 * Pow2(k) - 2 + TrailingOnes(bitmap)
    && 2 * Scale(bitmap, k) - PopCount(bitmap) + left == size
  }

  /** `bitmap << k`. */
  function Scale(bitmap: nat, k: nat): nat {
    bitmap * Pow2(k)
  }

  lemma ScaleStep(bitmap: nat, k: nat)
    requires k > 0
    ensures Scale(bitmap, k) == Scale(2 * bitmap, k - 1)
    ensures Scale(2 * bitmap + 1, k - 1) == Scale(bitmap, k) + Pow2(k - 1)
    ensures Scale(bitmap + 1, k) == Scale(bitmap, k) + Pow2(k)
    ensures Scale(2 * bitmap + 2, k - 1) == Scale(bitmap + 1, k)
  {
    var d := Pow2(k - 1);
    assert bitmap * (2 * d) == (2 * bitmap) * d;
    assert (2 * bitmap + 1) * d == (2 * bitmap) * d + d;
    assert (bitmap + 1) * (2 * d) == bitmap * (2 * d) + 2 * d;
    assert (2 * bitmap + 2) * d == (2 * bitmap) * d + 2 * d;
  }

  lemma ScaleZero(k: nat, bitmap: nat)
    ensures Scale(0, k) == 0 && Scale(bitmap, 0) == bitmap
  {
  }

  lemma GreedyStart(size: nat)
    ensures Greedy(size, BitLength(size), 0, size)
  {
    ScaleZero(BitLength(size), 0);
  }

  lemma GreedyStep(size: nat, k: nat, bitmap: nat, left: int)
    requires k > 0 && Greedy(size, k, bitmap, left)
    ensures left >= Pow2(k) - 1 ==> Greedy(size, k - 1, 2 * bitmap + 1, left - (Pow2(k) - 1))
    ensures left < Pow2(k) - 1 ==> Greedy(size, k - 1, 2 * bitmap, left)
  {
    hide Scale;
    ScaleStep(bitmap, k);
    assert (2 * bitmap + 1) / 2 == bitmap && (2 * bitmap) / 2 == bitmap;
    assert PopCount(2 * bitmap) == PopCount(bitmap) && PopCount(2 * bitmap + 1) == PopCount(bitmap) + 1;
    assert TrailingOnes(2 * bitmap) == 0 && TrailingOnes(2 * bitmap + 1) == TrailingOnes(bitmap) + 1;
  }

  lemma GreedyDone(size: nat, bitmap: nat, left: nat)
    requires Greedy(size, 0, bitmap, left)
    ensures CoordOf(size + 1) == Coord(bitmap, left)
  {
    ScaleZero(0, bitmap);
    CoordAt(Coord(bitmap, left), size + 1);
  }

  /** The greedy decomposition of a size into perfect trees finds the node that comes next. */
  method PeakMapHeight(size: nat) returns (peakMap: nat, height: nat)
    ensures CoordOf(size + 1) == Coord(peakMap, height)
  {
    hide Greedy;
    if size == 0 {
      GreedyStart(0);
      GreedyDone(0, 0, 0);
      return 0, 0;
    }
    peakMap, height := 0, size;
    var peakSize := Pow2(BitLength(size)) - 1;
    ghost var k := BitLength(size);
    GreedyStart(size);
    while peakSize != 0
      invariant peakSize == Pow2(k) - 1
      invariant Greedy(size, k, peakMap, height)
      decreases k
    {
      GreedyStep(size, k, peakMap, height);
      peakMap := 2 * peakMap;
      if height >= peakSize {
        height := height - peakSize;
        peakMap := peakMap + 1;
      }
      peakSize := peakSize / 2;
      k := k - 1;
    }
    Pow2Positive(k);
    GreedyDone(size, peakMap, height);
  }

  lemma Pow2Positive(k: nat)
    ensures k > 0 ==> Pow2(k) >= 2
  {
  }

  method BintreePostorderHeight(num: nat) returns (height: nat)
    ensures height == if num == 0 then 0 else Height(num)
  {
    if num == 0 {
      return 0;
    }
    var _, h := PeakMapHeight(num - 1);
    return h;
  }

  method LeafTest(pos: Pos) returns (leaf: bool)
    ensures leaf == IsLeaf(pos)
  {
    var h := BintreePostorderHeight(pos);
    return h == 0;
  }

  /** Parent and sibling from the peak bitmap of the node. */
  method FamilyOf(pos: Pos) returns (parent: Pos, sibling: Pos)
    ensures parent == Parent(pos) && sibling == Sibling(pos)
  {
    var peakMap, height := PeakMapHeight(pos - 1);
    BitOfRun(peakMap, height);
    TestBitIsBit(peakMap, height);
    var peak := Pow2(height);
    SiblingPositive(pos);
    if TestBit(peakMap, peak) {
      return pos + 1, pos + 1 - 2 * peak;
    } else {
      return pos + 2 * peak, pos + 2 * peak - 1;
    }
  }

  /** The nodes from `p` up that lie within the first `last` positions. */
  ghost function PathUp(p: Pos, last: nat): seq<Pos>
    decreases if p <= last then last + 1 - p else 0
  {
    if p > last then []
    else
      Family(p);
      [p] + PathUp(Parent(p), last)
  }

  /** `a` and `b` have the same bits from bit `k` up. */
  ghost predicate SameBitsFrom(a: nat, b: nat, k: nat) {
    forall j: nat :: j >= k ==> (Bit(a, j) <==> Bit(b, j))
  }

  /** A bitmap that agrees with a node from its height up tells its side, and goes on agreeing with its parent. */
  lemma PathStep(peakMap: nat, p: Pos)
    requires SameBitsFrom(peakMap, LastLeaf(p), Height(p))
    ensures TestBit(peakMap, Pow2(Height(p))) <==> IsRight(p)
    ensures Parent(p) == if TestBit(peakMap, Pow2(Height(p))) then p + 1 else p + 2 * Pow2(Height(p))
    ensures Pow2(Height(Parent(p))) == 2 * Pow2(Height(p))
    ensures SameBitsFrom(peakMap, LastLeaf(Parent(p)), Height(Parent(p)))
  {
    var n := LastLeaf(p);
    BitOfRun(n, Height(p));
    TestBitIsBit(peakMap, Height(p));
    assert Bit(peakMap, Height(p)) <==> IsRight(p);
    if IsRight(p) {
      RightCoords(p);
    } else {
      LeftCoords(p);
      SetLowestZeroKeepsAll(n, LastLeaf(Parent(p)));
    }
  }

  lemma SetLowestZeroKeepsAll(n: nat, m: nat)
    requires m == n + Pow2(TrailingOnes(n))
    ensures SameBitsFrom(n, m, TrailingOnes(n) + 1)
  {
    forall j: nat | j > TrailingOnes(n) ensures Bit(n, j) <==> Bit(m, j) {
      SetLowestZeroKeepsHigher(n, j);
    }
  }

  lemma PathUpStep(p: Pos, last: nat)
    requires p <= last
    ensures Parent(p) > p
    ensures PathUp(p, last) == [p] + PathUp(Parent(p), last)
  {
    Family(p);
  }

  /** One peak bitmap, read at rising bits, steers the whole climb. */
  method Path(pos: Pos, last: nat) returns (path: seq<Pos>)
    ensures path == PathUp(pos, last)
  {
    hide *;
    var peakMap, height := PeakMapHeight(pos - 1);
    var peak := Pow2(height);
    path := [];
    var current := pos;
    PathStart(pos, peakMap, height);
    while current <= last
      invariant peak == Pow2(Height(current))
      invariant SameBitsFrom(peakMap, LastLeaf(current), Height(current))
      invariant path + PathUp(current, last) == PathUp(pos, last)
      decreases last + 1 - current
    {
      path := path + [current];
      PathStep(peakMap, current);
      PathUpStep(current, last);
      current := if TestBit(peakMap, peak) then current + 1 else current + 2 * peak;
      peak := 2 * peak;
    }
    PathUpEnd(current, last);
  }

  lemma PathStart(p: Pos, peakMap: nat, height: nat)
    requires CoordOf(p) == Coord(peakMap, height)
    ensures Height(p) == height && SameBitsFrom(peakMap, LastLeaf(p), height)
  {
  }

  lemma PathUpEnd(p: Pos, last: nat)
    requires p > last
    ensures PathUp(p, last) == []
  {
  }

  /** The number of leaves among the first `size` positions. */
  ghost function LeafCount(size: nat): nat {
    if size == 0 then 0 else LastLeaf(size) + 1
  }

  lemma LeafCountSpec(size: nat, k: nat)
    ensures LeafPos(k) <= size <==> k < LeafCount(size)
  {
    if size > 0 {
      var c := CoordOf(size);
      if k > c.leaf {
        CoordOrder(c, Coord(k, 0));
      } else {
        SizeMonotone(k, c.leaf);
      }
    }
  }

  function HalfSum(sizes: seq<nat>): nat {
    if sizes == [] then 0 else HalfSum(sizes[..|sizes| - 1]) + (sizes[|sizes| - 1] + 1) / 2
  }

  /** The sizes of the perfect trees in a range of `size` positions, and how many positions are left over. */
  method PeakSizesHeight(size: nat) returns (sizes: seq<nat>, height: nat)
    ensures CoordOf(size + 1) == Coord(HalfSum(sizes), height)
  {
    hide Greedy, Scale;
    if size == 0 {
      GreedyStart(0);
      GreedyDone(0, 0, 0);
      return [], 0;
    }
    sizes, height := [], size;
    var peakSize := Pow2(BitLength(size)) - 1;
    ghost var k := BitLength(size);
    ghost var bitmap: nat := 0;
    GreedyStart(size);
    ScaleZero(k, 0);
    while peakSize != 0
      invariant peakSize == Pow2(k) - 1
      invariant Greedy(size, k, bitmap, height)
      invariant HalfSum(sizes) == Scale(bitmap, k)
      decreases k
    {
      GreedyStep(size, k, bitmap, height);
      HalfSumStep(sizes, bitmap, k);
      bitmap := 2 * bitmap;
      if height >= peakSize {
        sizes := sizes + [peakSize];
        height := height - peakSize;
        bitmap := bitmap + 1;
      }
      peakSize := peakSize / 2;
      k := k - 1;
    }
    Pow2Positive(k);
    ScaleZero(0, bitmap);
    GreedyDone(size, bitmap, height);
  }

  lemma HalfSumStep(sizes: seq<nat>, bitmap: nat, k: nat)
    requires k > 0 && HalfSum(sizes) == Scale(bitmap, k)
    ensures HalfSum(sizes) == Scale(2 * bitmap, k - 1)
    ensures HalfSum(sizes + [Pow2(k) - 1]) == Scale(2 * bitmap + 1, k - 1)
  {
    hide Scale;
    ScaleStep(bitmap, k);
    HalfSumAppend(sizes, Pow2(k) - 1);
  }

  lemma HalfSumAppend(sizes: seq<nat>, x: nat)
    ensures HalfSum(sizes + [x]) == HalfSum(sizes) + (x + 1) / 2
  {
    assert (sizes + [x])[..|sizes|] == sizes;
  }

  method NLeaves(size: nat) returns (n: nat)
    ensures n == LeafCount(size)
  {
    var sizes, height := PeakSizesHeight(size);
    n := 0;
    for i := 0 to |sizes|
      invariant n == HalfSum(sizes[..i])
    {
      HalfSumAppend(sizes[..i], sizes[i]);
      assert sizes[..i + 1] == sizes[..i] + [sizes[i]];
      n := n + (sizes[i] + 1) / 2;
    }
    assert sizes[..|sizes|] == sizes;
    LeafCountNext(size);
    if height != 0 {
      n := n + 1;
    }
  }

  lemma LeafCountNext(size: nat)
    ensures LeafCount(size) == CoordOf(size + 1).leaf + (if CoordOf(size + 1).height == 0 then 0 else 1)
  {
    var c := CoordOf(size + 1);
    if c.height > 0 {
      CoordAt(Coord(c.leaf, c.height - 1), size);
    } else {
      LeafCountSpec(size, c.leaf);
      if c.leaf > 0 { LeafOrder(c.leaf - 1, c.leaf); LeafCountSpec(size, c.leaf - 1); }
    }
  }

  lemma LeafPosition(n: nat, pos: nat)
    requires pos == 2 * n - PopCount(n) + 1
    ensures pos >= 1 && IsLeaf(pos) && LeafCount(pos) == n + 1
  {
    hide PopCount;
    PopCountBound(n);
    LeafAt(n);
  }

  /** The position of the `sz`-th inserted leaf, counting from one. */
  function InsertionToPmmrIndex(sz: nat): (pos: nat)
    ensures sz == 0 ==> pos == 0
    ensures sz > 0 ==> pos >= 1 && IsLeaf(pos) && LeafCount(pos) == sz
  {
    if sz == 0 then 0
    else
      PopCountBound(sz - 1);
      var pos := 2 * (sz - 1) - PopCount(sz - 1) + 1;
      LeafPosition(sz - 1, pos);
      pos
  }
}
