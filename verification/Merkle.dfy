/**
 The Merkle hashes of a range: which hashes belong to the data, where the peaks are, and the
 root that bags them. Hash functions are parameters.
 */
module Merkle {
  import opened Binary
  import opened Mmr
  import opened Bitmaps
  import opened Navigation
  import opened Pruning
  import opened Ranks
  import opened CompactFiles
  import opened BackendState

  datatype Hasher = Hasher(leaf: (Bytes, nat) -> Bytes, node: (Bytes, Bytes, nat) -> Bytes)

  ghost predicate Produces(hasher: Hasher, len: nat) {
    && (forall e, i :: |hasher.leaf(e, i)| == len)
    && (forall l, r, i :: |hasher.node(l, r, i)| == len)
  }

  /** The hash at `p` is that of its data, or of its children. */
  ghost predicate HashedAt(hasher: Hasher, c: Contents, p: Pos)
    requires Whole(c) && p <= |c.hashes|
  {
    if IsLeaf(p) then
      LeafCountWithin(c, p);
      c.hashes[p - 1] == hasher.leaf(c.data[LeafCount(p) - 1], p - 1)
    else
      c.hashes[p - 1] == hasher.node(c.hashes[LeftChild(p) - 1], c.hashes[RightChild(p) - 1], p - 1)
  }

  /** Every hash is the hash of what is below it. */
  ghost predicate Hashed(hasher: Hasher, c: Contents) {
    Whole(c) && forall p: Pos :: p <= |c.hashes| ==> HashedAt(hasher, c, p)
  }

  /** The peaks of a range: the nodes whose parent is not in it. */
  ghost predicate IsPeak(size: nat, p: Pos) {
    p <= size < Parent(p)
  }

  /** A peak is never compacted, whatever has been pruned. */
  lemma PeakIsKept(leaves: set<Pos>, size: nat, p: Pos)
    requires WholeSize(size) && UpTo(leaves, size) && IsPeak(size, p)
    ensures !Compacted(leaves, p)
  {
    if Compacted(leaves, p) { FullInside(leaves, size, Parent(p)); }
  }

  /** Nodes laid side by side from position 1 to `end`. */
  ghost predicate Tiles(v: seq<Pos>, end: nat) {
    if v == [] then end == 0
    else v[|v| - 1] == end && Tiles(v[..|v| - 1], First(end) - 1)
  }

  lemma {:induction false} TileOver(v: seq<Pos>, end: nat, p: Pos) returns (i: nat)
    requires Tiles(v, end) && p <= end
    ensures i < |v| && Under(p, v[i])
    decreases |v|
  {
    if First(end) <= p {
      i := |v| - 1;
    } else {
      i := TileOver(v[..|v| - 1], First(end) - 1, p);
    }
  }

  lemma {:induction false} TilesAscend(v: seq<Pos>, end: nat)
    requires Tiles(v, end)
    ensures Ascends(v)
    ensures forall i :: 0 <= i < |v| ==> v[i] <= end
    decreases |v|
  {
    if v != [] {
      TilesAscend(v[..|v| - 1], First(end) - 1);
      FirstUp(end);
      forall i, j | 0 <= i < j < |v| ensures v[i] < v[j] {
        assert v[..|v| - 1][i] == v[i];
        if j < |v| - 1 { assert v[..|v| - 1][j] == v[j]; }
      }
      forall i | 0 <= i < |v| ensures v[i] <= end {
        if i < |v| - 1 { assert v[..|v| - 1][i] == v[i]; }
      }
    }
  }

  /** Tiles whose parents are all outside are exactly the peaks. */
  lemma TilesArePeaks(v: seq<Pos>, size: nat)
    requires Tiles(v, size)
    requires forall i :: 0 <= i < |v| ==> Parent(v[i]) > size
    ensures Ascends(v) && forall p: Pos :: p in v <==> IsPeak(size, p)
  {
    hide Tiles, First, Parent;
    TilesAscend(v, size);
    forall p: Pos | IsPeak(size, p) ensures p in v {
      var i := TileOver(v, size, p);
      if p != v[i] { UnderClosed(p, v[i]); }
    }
  }

  lemma TilesAppend(v: seq<Pos>, end: nat, p: Pos)
    requires Tiles(v, end) && First(p) == end + 1
    ensures Tiles(v + [p], p)
  {
    assert (v + [p])[..|v|] == v;
  }

  /** `a` followed by `h` one bits. */
  lemma {:induction false} ShiftedRun(a: nat, h: nat, n: nat)
    requires n == Scale(a, h) + (Pow2(h) - 1)
    ensures PopCount(n) == PopCount(a) + h
    ensures TrailingOnes(n) == TrailingOnes(a) + h
    decreases h
  {
    hide PopCount, TrailingOnes, Scale;
    if h == 0 {
      ScaleZero(0, a);
    } else {
      var m := Scale(a, h - 1) + (Pow2(h - 1) - 1);
      ShiftedRun(a, h - 1, m);
      ScaleDouble(a, h);
      OddHalf(n, m);
    }
  }

  lemma ScaleDouble(a: nat, h: nat)
    requires h > 0
    ensures Scale(a, h) == 2 * Scale(a, h - 1)
  {
    assert a * (2 * Pow2(h - 1)) == 2 * (a * Pow2(h - 1));
  }

  lemma OddHalf(n: nat, m: nat)
    requires n == 2 * m + 1
    ensures PopCount(n) == PopCount(m) + 1 && TrailingOnes(n) == TrailingOnes(m) + 1
  {
    assert n / 2 == m && n % 2 == 1;
  }

  lemma {:induction false} ShiftedCount(a: nat, h: nat)
    ensures PopCount(Scale(a, h)) == PopCount(a)
    decreases h
  {
    hide PopCount, Scale;
    if h > 0 {
      ScaleStep(a, h);
      ShiftedCount(2 * a, h - 1);
      EvenHalf(a);
    } else {
      ScaleZero(0, a);
    }
  }

  /** After `2 * b` perfect trees of height `h`, the next tree of that height is a left child. */
  lemma NextPeak(b: nat, h: nat, start: nat, p: Pos)
    requires start == Scale(b, h + 1) && p == Size(start) + Pow2(h + 1) - 1
    ensures First(p) == Size(start) + 1
    ensures LastLeaf(Parent(p)) == start + Pow2(h + 1) - 1
  {
    hide Parent;
    var n := start + (Pow2(h) - 1);
    NextPeakCoord(b, h, start, n);
    CoordAt(Coord(n, h), p);
    LeftCoords(p);
  }

  lemma NextPeakCoord(b: nat, h: nat, start: nat, n: nat)
    requires start == Scale(b, h + 1) && n == start + (Pow2(h) - 1)
    ensures PosOf(Coord(n, h)) == Size(start) + Pow2(h + 1) - 1
    ensures TrailingOnes(n) == h
  {
    hide PopCount, TrailingOnes, Scale;
    ScaleStep(b, h + 1);
    ShiftedRun(2 * b, h, n);
    ShiftedCount(2 * b, h);
    EvenHalf(b);
  }

  /** The parents of the peaks found so far reach past every leaf that may still come. */
  ghost predicate ReachPast(v: seq<Pos>, leaf: nat) {
    forall i :: 0 <= i < |v| ==> LastLeaf(Parent(v[i])) + 1 >= leaf
  }

  /** What the search for peaks knows when the tree sizes above `2^k - 1` have been tried. */
  ghost predicate PeaksSoFar(num: nat, k: nat, bitmap: nat, left: int, peaks: seq<Pos>) {
    && Greedy(num, k, bitmap, left)
    && num - left == Size(Scale(bitmap, k))
    && Tiles(peaks, num - left)
    && ReachPast(peaks, Scale(bitmap + 1, k))
  }

  lemma PeaksStart(num: nat)
    ensures PeaksSoFar(num, BitLength(num), 0, num, [])
  {
    GreedyStart(num);
    ScaleZero(BitLength(num), 0);
  }

  lemma PeaksStep(num: nat, k: nat, bitmap: nat, left: nat, peaks: seq<Pos>)
    requires k > 0 && left <= num && PeaksSoFar(num, k, bitmap, left, peaks)
    ensures left >= Pow2(k) - 1 ==>
              PeaksSoFar(num, k - 1, 2 * bitmap + 1, left - (Pow2(k) - 1), peaks + [num - left + (Pow2(k) - 1)])
    ensures left < Pow2(k) - 1 ==> PeaksSoFar(num, k - 1, 2 * bitmap, left, peaks)
  {
    hide Greedy, Size, First, LastLeaf, Parent, Scale, Tiles;
    GreedyStep(num, k, bitmap, left);
    ScaleStep(bitmap, k);
    if left >= Pow2(k) - 1 {
      var p := num - left + (Pow2(k) - 1);
      NextPeak(bitmap, k - 1, Scale(bitmap, k), p);
      TilesAppend(peaks, num - left, p);
      NextStart(bitmap, k);
    } else {
      ScaleStep(bitmap, k);
    }
  }

  lemma NextStart(bitmap: nat, k: nat)
    requires k > 0
    ensures Size(Scale(2 * bitmap + 1, k - 1)) == Size(Scale(bitmap, k)) + (Pow2(k) - 1)
  {
    hide PopCount, TrailingOnes, Scale;
    ScaleStep(bitmap, k);
    ShiftedCount(bitmap, k);
    ShiftedCount(2 * bitmap + 1, k - 1);
    OddHalf(2 * bitmap + 1, bitmap);
  }

  lemma EvenHalf(m: nat)
    ensures PopCount(2 * m) == PopCount(m) && TrailingOnes(2 * m) == 0
  {
    assert (2 * m) / 2 == m;
  }

  lemma PeaksDone(num: nat, bitmap: nat, left: nat, peaks: seq<Pos>)
    requires PeaksSoFar(num, 0, bitmap, left, peaks)
    ensures WholeSize(num) <==> left == 0
    ensures left == 0 ==> Ascends(peaks) && forall p: Pos :: p in peaks <==> IsPeak(num, p)
  {
    hide Greedy, Tiles;
    GreedyDone(num, bitmap, left);
    if left == 0 {
      ScaleZero(0, bitmap);
      ScaleZero(0, bitmap + 1);
      forall i | 0 <= i < |peaks| ensures Parent(peaks[i]) > num {
        ReachesPast(Parent(peaks[i]), bitmap);
      }
      TilesArePeaks(peaks, num);
    }
  }

  lemma ReachesPast(p: Pos, n: nat)
    requires LastLeaf(p) >= n
    ensures p > Size(n)
  {
    hide Size;
    SizeMonotone(n, LastLeaf(p));
  }

  /** The peaks from left to right, or none when the size is not whole. */
  method Peaks(num: nat) returns (peaks: seq<Pos>)
    ensures !WholeSize(num) ==> peaks == []
    ensures WholeSize(num) ==> Ascends(peaks) && forall p: Pos :: p in peaks <==> IsPeak(num, p)
  {
    hide PeaksSoFar, IsPeak, WholeSize;
    peaks := [];
    if num == 0 {
      PeaksStart(0);
      PeaksDone(0, 0, 0, []);
      return;
    }
    var peakSize := Pow2(BitLength(num)) - 1;
    var numLeft, sumPrevPeaks := num, 0;
    ghost var k, bitmap := BitLength(num), 0;
    PeaksStart(num);
    while peakSize != 0
      invariant peakSize == Pow2(k) - 1 && bitmap >= 0
      invariant 0 <= numLeft <= num && sumPrevPeaks == num - numLeft
      invariant PeaksSoFar(num, k, bitmap, numLeft, peaks)
      decreases k
    {
      PeaksStep(num, k, bitmap, numLeft, peaks);
      bitmap := 2 * bitmap;
      if numLeft >= peakSize {
        peaks := peaks + [sumPrevPeaks + peakSize];
        sumPrevPeaks := sumPrevPeaks + peakSize;
        numLeft := numLeft - peakSize;
        bitmap := bitmap + 1;
      }
      peakSize := peakSize / 2;
      k := k - 1;
    }
    Pow2Positive(k);
    PeaksDone(num, bitmap, numLeft, peaks);
    if numLeft > 0 {
      return [];
    }
  }

  ghost function PeaksOf(size: nat): seq<Pos> {
    Ascending(set p: Pos | 1 <= p <= size && IsPeak(size, p))
  }

  lemma PeaksAreThose(size: nat, v: seq<Pos>)
    requires Ascends(v) && forall p: Pos :: p in v <==> IsPeak(size, p)
    ensures v == PeaksOf(size)
  {
    AscendingUnique(v, set p: Pos | 1 <= p <= size && IsPeak(size, p));
  }

  /** Peaks hashed together from right to left. */
  function Bag(hasher: Hasher, hashes: seq<Bytes>, size: nat): Bytes
    requires hashes != []
  {
    if |hashes| == 1 then hashes[0] else hasher.node(hashes[0], Bag(hasher, hashes[1..], size), size)
  }

  ghost function HashesAt(c: Contents, v: seq<Pos>): seq<Bytes>
    requires forall p :: p in v ==> p <= |c.hashes|
  {
    seq(|v|, i requires 0 <= i < |v| => assert v[i] in v; c.hashes[v[i] - 1])
  }

  /** The root of everything in the range: it depends on no file, leaf set or prune list. */
  ghost function RootOf(hasher: Hasher, c: Contents): Bytes
    requires Whole(c) && |c.hashes| > 0
  {
    PeaksInside(|c.hashes|);
    Bag(hasher, HashesAt(c, PeaksOf(|c.hashes|)), |c.hashes|)
  }

  lemma PeaksInside(size: nat)
    requires WholeSize(size) && size > 0
    ensures PeaksOf(size) != []
    ensures forall p :: p in PeaksOf(size) ==> p <= size && IsPeak(size, p)
  {
    var s := set p: Pos | 1 <= p <= size && IsPeak(size, p);
    AscendingLists(s);
    LastIsPeak(size);
    assert size in s;
  }

  /** The last position of a whole range is a peak. */
  lemma LastIsPeak(size: nat)
    requires WholeSize(size) && size > 0
    ensures IsPeak(size, size)
  {
    Family(size);
  }

  /** The `i`-th parent a new leaf completes hashes its old sibling with the node before it. */
  ghost predicate PushedAt(hasher: Hasher, c: Contents, hashes: seq<Bytes>, i: nat)
    requires 0 < i < |hashes|
  {
    var sibling := Sibling(|c.hashes| + i);
    && sibling <= |c.hashes|
    && hashes[i] == hasher.node(c.hashes[sibling - 1], hashes[i - 1], |c.hashes| + i)
  }

  /** The hashes of a new leaf and of the parents it completes. */
  ghost predicate Pushed(hasher: Hasher, c: Contents, element: Bytes, hashes: seq<Bytes>) {
    && hashes != []
    && hashes[0] == hasher.leaf(element, |c.hashes|)
    && forall i :: 0 < i < |hashes| ==> PushedAt(hasher, c, hashes, i)
  }

  /** The node `j` steps above a new leaf, while the steps lead up from right children. */
  lemma NewNode(size: nat, j: nat)
    requires WholeSize(size) && j <= TrailingOnes(LeafCount(size))
    ensures CoordOf(size + 1 + j) == Coord(LeafCount(size), j)
    ensures size == Size(LeafCount(size))
  {
    LeafCountNext(size);
    var n := LeafCount(size);
    CoordAt(Coord(n, j), size + 1 + j);
  }

  /** While it is a right child, its sibling is a peak of the range before. */
  lemma NewSibling(size: nat, j: nat)
    requires WholeSize(size) && j < TrailingOnes(LeafCount(size))
    ensures IsRight(size + 1 + j)
    ensures Sibling(size + 1 + j) == size + 2 + j - 2 * Pow2(j)
    ensures IsPeak(size, Sibling(size + 1 + j))
  {
    hide LeafCount, Size, TrailingOnes;
    NewNode(size, j);
    NewNode(size, 0);
    var p: Pos := size + 1 + j;
    assert Height(p) == j;
    Family(p);
    LastLeafUnder(p);
    LeafAt(LeafCount(size));
  }

  lemma NewSize(size: nat, j: nat)
    requires WholeSize(size) && j == TrailingOnes(LeafCount(size))
    ensures WholeSize(size + 1 + j)
    ensures LeafCount(size + 1 + j) == LeafCount(size) + 1
  {
    hide Size, TrailingOnes;
    NewNode(size, j);
    SizeSucc(LeafCount(size));
    LeafAt(LeafCount(size) + 1);
  }

  lemma PushedIsHashed(hasher: Hasher, c: Contents, element: Bytes, hashes: seq<Bytes>)
    requires Hashed(hasher, c) && Pushed(hasher, c, element, hashes)
    requires |hashes| == TrailingOnes(LeafCount(|c.hashes|)) + 1
    ensures Hashed(hasher, Extend(c, hashes, element))
  {
    hide LeafCount, Height, LeftChild, RightChild, Sibling, Size, WholeSize;
    var d := Extend(c, hashes, element);
    var size := |c.hashes|;
    NewSize(size, |hashes| - 1);
    forall p: Pos | p <= |d.hashes| ensures HashedAt(hasher, d, p) {
      if p <= size {
        OldHashed(hasher, c, d, p);
      } else {
        NewHashed(hasher, c, element, hashes, d, p - size - 1);
      }
    }
  }

  lemma OldHashed(hasher: Hasher, c: Contents, d: Contents, p: Pos)
    requires Whole(c) && Whole(d) && p <= |c.hashes| && HashedAt(hasher, c, p)
    requires c.hashes <= d.hashes && c.data <= d.data
    ensures HashedAt(hasher, d, p)
  {
    LeafCountWithin(c, p);
  }

  lemma NewHashed(hasher: Hasher, c: Contents, element: Bytes, hashes: seq<Bytes>, d: Contents, i: nat)
    requires Whole(c) && d == Extend(c, hashes, element) && Whole(d)
    requires Pushed(hasher, c, element, hashes)
    requires i < |hashes| == TrailingOnes(LeafCount(|c.hashes|)) + 1
    ensures HashedAt(hasher, d, |c.hashes| + 1 + i)
  {
    hide Size, First, Parent, Sibling, TrailingOnes;
    var size := |c.hashes|;
    var p: Pos := size + 1 + i;
    NewNode(size, i);
    if i == 0 {
      LeafCountStep(p);
    } else {
      Children(p);
      assert PushedAt(hasher, c, hashes, i);
      assert RightChild(p) == size + i;
      assert LeftChild(p) == Sibling(size + i);
    }
  }

  lemma CutIsHashed(hasher: Hasher, c: Contents, size: nat)
    requires Hashed(hasher, c) && size <= |c.hashes| && WholeSize(size)
    ensures LeafCount(size) <= |c.data|
    ensures Hashed(hasher, Cut(c, size))
  {
    hide LeafCount, WholeSize;
    CutFits(c, size);
    var d := Cut(c, size);
    forall p: Pos | p <= size ensures HashedAt(hasher, d, p) {
      CutHashed(hasher, c, d, p);
    }
  }

  lemma CutHashed(hasher: Hasher, c: Contents, d: Contents, p: Pos)
    requires Whole(c) && Whole(d) && p <= |d.hashes| && d.hashes <= c.hashes && d.data <= c.data
    requires HashedAt(hasher, c, p)
    ensures HashedAt(hasher, d, p)
  {
    LeafCountWithin(d, p);
  }

  /** A whole range is as long as its leaves say. */
  lemma WholeSizeByLeaves(a: nat, b: nat)
    requires WholeSize(a) && WholeSize(b) && LeafCount(a) == LeafCount(b)
    ensures a == b
  {
    hide LeafCount;
    if a < b {
      LeafCountStep(a + 1);
      CountMonotone(Leaves, a + 1, b);
    } else if b < a {
      LeafCountStep(b + 1);
      CountMonotone(Leaves, b + 1, a);
    }
  }

  lemma {:induction false} HashDetermined(hasher: Hasher, c: Contents, d: Contents, p: Pos)
    requires Hashed(hasher, c) && Hashed(hasher, d) && c.data == d.data && p <= |c.hashes| == |d.hashes|
    ensures c.hashes[p - 1] == d.hashes[p - 1]
    decreases p
  {
    hide LeafCount, Whole, IsLeaf, LeftChild, RightChild;
    assert HashedAt(hasher, c, p) && HashedAt(hasher, d, p);
    if !IsLeaf(p) {
      ChildrenBelow(p);
      HashDetermined(hasher, c, d, LeftChild(p));
      HashDetermined(hasher, c, d, RightChild(p));
    }
  }

  lemma ChildrenBelow(p: Pos)
    requires !IsLeaf(p)
    ensures LeftChild(p) < p && RightChild(p) < p
  {
    Children(p);
  }

  /** The leaf data fixes every hash and the root, however the range came about. */
  lemma RootDetermined(hasher: Hasher, c: Contents, d: Contents)
    requires Hashed(hasher, c) && Hashed(hasher, d) && c.data == d.data && c.data != []
    ensures c == d && RootOf(hasher, c) == RootOf(hasher, d)
  {
    hide HashedAt, LeafCount, WholeSize, RootOf;
    WholeSizeByLeaves(|c.hashes|, |d.hashes|);
    forall i | 0 <= i < |c.hashes| ensures c.hashes[i] == d.hashes[i] {
      HashDetermined(hasher, c, d, i + 1);
    }
    assert c.hashes == d.hashes;
  }
}
