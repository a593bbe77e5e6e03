/**
 Merkle proofs: the hashes beside the way from a leaf to its peak, then those that bag the peak.
 Every proof made of the right hashes leads to the root, and nothing but what is in the range has one.
 */
module MerkleProofs {
  import opened Binary
  import opened Mmr
  import opened Bitmaps
  import opened Navigation
  import opened Pruning
  import opened Collections
  import opened BackendState
  import opened Merkle

  /** What a hash is taken of: the data of a leaf or a pair of hashes. */
  datatype Element = Data(bytes: Bytes) | Pair(left: Bytes, right: Bytes)

  function HashWithIndex(hasher: Hasher, e: Element, index: nat): Bytes {
    match e
    case Data(bytes) => hasher.leaf(bytes, index)
    case Pair(left, right) => hasher.node(left, right, index)
  }

  datatype MerkleProof = MerkleProof(mmrSize: nat, path: seq<Bytes>)

  /** Outside the range everything is hashed with its size. */
  function IndexOf(size: nat, pos: Pos): nat {
    if pos > size then size else pos - 1
  }

  function NodeHash(hasher: Hasher, size: nat, e: Element, pos: Pos): Bytes {
    HashWithIndex(hasher, e, IndexOf(size, pos))
  }

  /** A node and the next hash of the path, in the order in which they are hashed. */
  ghost function Joined(size: nat, pos: Pos, hash: Bytes, sibling: Bytes): Element {
    if WholeSize(size) && IsPeak(size, pos) then
      if pos == size then Pair(sibling, hash) else Pair(hash, sibling)
    else if Parent(pos) > size || IsRight(pos) then Pair(sibling, hash)
    else Pair(hash, sibling)
  }

  /** Where a path leads from a hash. */
  ghost function RootBy(hasher: Hasher, size: nat, hash: Bytes, pos: Pos, path: seq<Bytes>): Bytes
    decreases |path|
  {
    if path == [] then hash
    else
      var e := Joined(size, pos, hash, path[0]);
      RootBy(hasher, size, NodeHash(hasher, size, e, Parent(pos)), Parent(pos), path[1..])
  }

  /** Peaks from left to right, the last of them at the end of the range. */
  lemma LastPeak(size: nat, peaks: seq<Pos>)
    requires WholeSize(size) && size > 0 && Ascends(peaks) && forall p: Pos :: p in peaks <==> IsPeak(size, p)
    ensures peaks != [] && peaks[|peaks| - 1] == size
  {
    LastIsPeak(size);
    var i :| 0 <= i < |peaks| && peaks[i] == size;
    assert peaks[|peaks| - 1] in peaks;
  }

  /** Follows a proof to the root it leads to. */
  method Verify(hasher: Hasher, proof: MerkleProof, root: Bytes, element: Element, nodePos: Pos) returns (ok: bool)
    ensures ok <==> root == RootBy(hasher, proof.mmrSize, NodeHash(hasher, proof.mmrSize, element, nodePos), nodePos,
            proof.path)
    decreases |proof.path|
  {
    hide Parent, Sibling, IsRight, WholeSize;
    var size := proof.mmrSize;
    var peaksPos := Peaks(size);
    var nodeHash := NodeHash(hasher, size, element, nodePos);
    if proof.path == [] {
      return root == nodeHash;
    }
    var sibling := proof.path[0];
    var parentPos, siblingPos := FamilyOf(nodePos);
    Family(nodePos);
    var parent;
    if nodePos in peaksPos {
      LastPeak(size, peaksPos);
      parent := if nodePos == peaksPos[|peaksPos| - 1] then Pair(sibling, nodeHash) else Pair(nodeHash, sibling);
    } else if parentPos > size {
      parent := Pair(sibling, nodeHash);
    } else {
      var left := IsLeftSibling(siblingPos);
      parent := if left then Pair(sibling, nodeHash) else Pair(nodeHash, sibling);
    }
    assert parent == Joined(size, nodePos, nodeHash, sibling);
    ok := Verify(hasher, MerkleProof(size, proof.path[1..]), root, parent, parentPos);
  }

  method IsLeftSibling(pos: Pos) returns (left: bool)
    ensures left <==> !IsRight(pos)
  {
    hide *;
    var peakMap, height := PeakMapHeight(pos - 1);
    PathStart(pos, peakMap, height);
    PathStep(peakMap, pos);
    left := !TestBit(peakMap, Pow2(height));
  }

  /** The way from a node to its peak: each parent, and the sibling hashed into it. */
  ghost function BranchUp(p: Pos, last: nat): seq<(Pos, Pos)>
    decreases if p <= last then last + 1 - p else 0
  {
    Family(p);
    if Parent(p) > last then [] else [(Parent(p), Sibling(p))] + BranchUp(Parent(p), last)
  }

  lemma BranchUpStep(p: Pos, last: nat)
    ensures Parent(p) > p
    ensures Parent(p) > last ==> BranchUp(p, last) == []
    ensures Parent(p) <= last ==> BranchUp(p, last) == [(Parent(p), Sibling(p))] + BranchUp(Parent(p), last)
    ensures Sibling(p) == if IsRight(p) then Parent(p) - 2 * Pow2(Height(p)) else Parent(p) - 1
  {
    Family(p);
  }

  method FamilyBranch(pos: Pos, last: nat) returns (branch: seq<(Pos, Pos)>)
    ensures branch == BranchUp(pos, last)
  {
    hide *;
    var peakMap, height := PeakMapHeight(pos - 1);
    var peak := Pow2(height);
    branch := [];
    var current := pos;
    PathStart(pos, peakMap, height);
    while current < last
      invariant peak == Pow2(Height(current))
      invariant SameBitsFrom(peakMap, LastLeaf(current), Height(current))
      invariant branch + BranchUp(current, last) == BranchUp(pos, last)
      decreases last + 1 - current
    {
      PathStep(peakMap, current);
      BranchUpStep(current, last);
      var sibling;
      if TestBit(peakMap, peak) {
        current := current + 1;
        sibling := current - 2 * peak;
      } else {
        current := current + 2 * peak;
        sibling := current - 1;
      }
      if current > last {
        return;
      }
      branch := branch + [(current, sibling)];
      peak := 2 * peak;
    }
    BranchUpStep(current, last);
  }

  /** The last position of a branch, which is the peak it leads to. */
  ghost function TopOf(p: Pos, last: nat): Pos {
    var branch := BranchUp(p, last);
    if branch == [] then p else branch[|branch| - 1].0
  }

  lemma {:induction false} BranchTop(p: Pos, last: nat)
    requires p <= last
    ensures IsPeak(last, TopOf(p, last)) && Under(p, TopOf(p, last))
    decreases last - p
  {
    hide IsRight, Sibling;
    Family(p);
    UnderSelf(p);
    if Parent(p) <= last {
      BranchTop(Parent(p), last);
      UnderParent(p, p);
      UnderTransitive(p, Parent(p), TopOf(p, last));
    }
  }

  /** The hashes of the siblings on a branch. */
  ghost function SiblingHashes(c: Contents, p: Pos): seq<Bytes>
    decreases if p <= |c.hashes| then |c.hashes| + 1 - p else 0
  {
    Family(p);
    if Parent(p) > |c.hashes| then [] else [c.hashes[Sibling(p) - 1]] + SiblingHashes(c, Parent(p))
  }

  lemma SiblingHashesStep(c: Contents, p: Pos)
    ensures Parent(p) > |c.hashes| ==> SiblingHashes(c, p) == []
    ensures Parent(p) <= |c.hashes| ==>
              && Sibling(p) <= |c.hashes|
              && SiblingHashes(c, p) == [c.hashes[Sibling(p) - 1]] + SiblingHashes(c, Parent(p))
  {
    Family(p);
  }

  lemma TopStep(p: Pos, last: nat)
    ensures Parent(p) > last ==> TopOf(p, last) == p
    ensures Parent(p) <= last ==> TopOf(p, last) == TopOf(Parent(p), last)
  {
    hide BranchUp;
    BranchUpStep(p, last);
    BranchUpStep(Parent(p), last);
  }

  lemma RootByStep(hasher: Hasher, size: nat, hash: Bytes, pos: Pos, sibling: Bytes, rest: seq<Bytes>)
    ensures var e := Joined(size, pos, hash, sibling);
            RootBy(hasher, size, hash, pos, [sibling] + rest) ==
            RootBy(hasher, size, NodeHash(hasher, size, e, Parent(pos)), Parent(pos), rest)
  {
    hide Joined, Parent;
    assert ([sibling] + rest)[1..] == rest;
  }

  /** What bags a peak: all peaks to the right of it as one, then those to the left. */
  ghost function PeakPath(hasher: Hasher, hashes: seq<Bytes>, k: nat, size: nat): seq<Bytes>
    requires k < |hashes|
  {
    (if k + 1 < |hashes| then [Bag(hasher, hashes[k + 1..], size)] else []) + Reverse(hashes[..k])
  }

  /** The hash of a parent in the range, from that of either child. */
  lemma ParentHash(hasher: Hasher, c: Contents, p: Pos)
    requires Hashed(hasher, c) && Parent(p) <= |c.hashes|
    ensures p <= |c.hashes| && Sibling(p) <= |c.hashes|
    ensures c.hashes[Parent(p) - 1] ==
            NodeHash(hasher, |c.hashes|, Joined(|c.hashes|, p, c.hashes[p - 1], c.hashes[Sibling(p) - 1]), Parent(p))
  {
    hide Parent, Sibling, IsRight, IsLeaf, LeftChild, RightChild, Joined, Whole, Hashed, LeafCount;
    RightOrLeft(p);
    NotLeafHash(hasher, c, Parent(p));
    JoinedBelow(|c.hashes|, p, c.hashes[p - 1], c.hashes[Sibling(p) - 1]);
  }

  lemma NotLeafHash(hasher: Hasher, c: Contents, q: Pos)
    requires Hashed(hasher, c) && q <= |c.hashes| && !IsLeaf(q)
    ensures LeftChild(q) < q && RightChild(q) < q
    ensures c.hashes[q - 1] == hasher.node(c.hashes[LeftChild(q) - 1], c.hashes[RightChild(q) - 1], q - 1)
  {
    hide IsLeaf, LeftChild, RightChild, Whole;
    ChildrenBelow(q);
    assert HashedAt(hasher, c, q);
  }

  /** Below the peaks, left child and right child in this order. */
  lemma JoinedBelow(size: nat, p: Pos, hash: Bytes, sibling: Bytes)
    requires Parent(p) <= size
    ensures Joined(size, p, hash, sibling) == if IsRight(p) then Pair(sibling, hash) else Pair(hash, sibling)
  {
    hide Parent, IsRight, WholeSize;
  }

  lemma RightOrLeft(p: Pos)
    ensures !IsLeaf(Parent(p)) && p < Parent(p) && Sibling(p) < Parent(p)
    ensures IsRight(p) ==> p == RightChild(Parent(p)) && Sibling(p) == LeftChild(Parent(p))
    ensures !IsRight(p) ==> p == LeftChild(Parent(p)) && Sibling(p) == RightChild(Parent(p))
  {
    hide Parent, Sibling, IsRight;
    Family(p);
    Family(Sibling(p));
    Children(Parent(p));
  }

  /** The siblings lead from a node to its peak. */
  lemma {:induction false} ClimbsToPeak(hasher: Hasher, c: Contents, p: Pos, rest: seq<Bytes>)
    requires Hashed(hasher, c) && p <= |c.hashes|
    ensures TopOf(p, |c.hashes|) <= |c.hashes|
    ensures RootBy(hasher, |c.hashes|, c.hashes[p - 1], p, SiblingHashes(c, p) + rest) ==
            RootBy(hasher, |c.hashes|, c.hashes[TopOf(p, |c.hashes|) - 1], TopOf(p, |c.hashes|), rest)
    decreases |c.hashes| - p
  {
    hide Hashed, Joined, Parent, Sibling, RootBy, TopOf, SiblingHashes, NodeHash, WholeSize;
    var size := |c.hashes|;
    ParentAbove(p);
    TopStep(p, size);
    SiblingHashesStep(c, p);
    if Parent(p) > size {
      assert SiblingHashes(c, p) + rest == rest;
    } else {
      ParentHash(hasher, c, p);
      ClimbsToPeak(hasher, c, Parent(p), rest);
      var sibling, more := c.hashes[Sibling(p) - 1], SiblingHashes(c, Parent(p)) + rest;
      RootByStep(hasher, size, c.hashes[p - 1], p, sibling, more);
      assert SiblingHashes(c, p) + rest == [sibling] + more;
    }
  }

  lemma ParentAbove(p: Pos)
    ensures Parent(p) > p
  {
    Family(p);
  }

  /** Outside the range, peaks are hashed in from right to left. */
  lemma {:induction false} BagsLeftPeaks(hasher: Hasher, hashes: seq<Bytes>, j: nat, size: nat, pos: Pos)
    requires j < |hashes| && pos > size
    ensures RootBy(hasher, size, Bag(hasher, hashes[j..], size), pos, Reverse(hashes[..j])) == Bag(hasher, hashes, size)
    decreases j
  {
    hide Parent, Bag, RootBy, Joined;
    Family(pos);
    if j == 0 {
      assert hashes[0..] == hashes && Reverse(hashes[..0]) == [];
      RootByEnd(hasher, size, Bag(hasher, hashes, size), pos);
    } else {
      BagStep(hasher, hashes, j - 1, size);
      BagsLeftPeaks(hasher, hashes, j - 1, size, Parent(pos));
      assert Reverse(hashes[..j]) == [hashes[j - 1]] + Reverse(hashes[..j - 1]);
      JoinedOutside(size, pos, Bag(hasher, hashes[j..], size), hashes[j - 1]);
      RootByStep(hasher, size, Bag(hasher, hashes[j..], size), pos, hashes[j - 1], Reverse(hashes[..j - 1]));
    }
  }

  lemma RootByEnd(hasher: Hasher, size: nat, hash: Bytes, pos: Pos)
    ensures RootBy(hasher, size, hash, pos, []) == hash
  {
  }

  lemma JoinedOutside(size: nat, pos: Pos, hash: Bytes, sibling: Bytes)
    requires pos > size
    ensures Joined(size, pos, hash, sibling) == Pair(sibling, hash)
  {
    hide Parent, IsRight, WholeSize;
    Family(pos);
  }

  lemma JoinedAtPeak(size: nat, pos: Pos, hash: Bytes, sibling: Bytes)
    requires WholeSize(size) && IsPeak(size, pos)
    ensures Parent(pos) > size
    ensures Joined(size, pos, hash, sibling) == if pos == size then Pair(sibling, hash) else Pair(hash, sibling)
  {
    hide Parent, IsRight, WholeSize;
  }

  lemma BagStep(hasher: Hasher, hashes: seq<Bytes>, j: nat, size: nat)
    requires j < |hashes|
    ensures j + 1 == |hashes| ==> Bag(hasher, hashes[j..], size) == hashes[j]
    ensures j + 1 < |hashes| ==>
              Bag(hasher, hashes[j..], size) == hasher.node(hashes[j], Bag(hasher, hashes[j + 1..], size), size)
  {
    if j + 1 < |hashes| { assert hashes[j..][1..] == hashes[j + 1..]; }
  }

  /** The path of a peak leads to the root. */
  lemma PeakBags(hasher: Hasher, hashes: seq<Bytes>, k: nat, size: nat, pos: Pos)
    requires k < |hashes| && WholeSize(size) && IsPeak(size, pos) && (pos == size <==> k + 1 == |hashes|)
    ensures RootBy(hasher, size, hashes[k], pos, PeakPath(hasher, hashes, k, size)) == Bag(hasher, hashes, size)
  {
    hide Parent, Bag, WholeSize, IsPeak, RootBy, Joined;
    var path := PeakPath(hasher, hashes, k, size);
    BagStep(hasher, hashes, k, size);
    if k + 1 < |hashes| {
      var rhs, rest := Bag(hasher, hashes[k + 1..], size), Reverse(hashes[..k]);
      assert path == [rhs] + rest;
      JoinedAtPeak(size, pos, hashes[k], rhs);
      RootByStep(hasher, size, hashes[k], pos, rhs, rest);
      BagsLeftPeaks(hasher, hashes, k, size, Parent(pos));
    } else if k > 0 {
      var rest := Reverse(hashes[..k - 1]);
      assert path == [hashes[k - 1]] + rest;
      BagStep(hasher, hashes, k - 1, size);
      JoinedAtPeak(size, pos, hashes[k], hashes[k - 1]);
      RootByStep(hasher, size, hashes[k], pos, hashes[k - 1], rest);
      BagsLeftPeaks(hasher, hashes, k - 1, size, Parent(pos));
    } else {
      assert hashes[0..] == hashes && path == [];
      RootByEnd(hasher, size, hashes[k], pos);
    }
  }

  /** The path of a leaf: the siblings below its peak, and what bags the peak, which is the `k`-th. */
  ghost predicate RightPath(hasher: Hasher, c: Contents, p: Pos, k: nat, path: seq<Bytes>)
    requires Whole(c) && |c.hashes| > 0
  {
    PeaksInside(|c.hashes|);
    && k < |PeaksOf(|c.hashes|)| && PeaksOf(|c.hashes|)[k] == TopOf(p, |c.hashes|)
    && path == SiblingHashes(c, p) + PeakPath(hasher, HashesAt(c, PeaksOf(|c.hashes|)), k, |c.hashes|)
  }

  /** A right path leads to the root. */
  lemma RightPathVerifies(hasher: Hasher, c: Contents, p: Pos, k: nat, path: seq<Bytes>)
    requires Hashed(hasher, c) && p <= |c.hashes| && RightPath(hasher, c, p, k, path)
    ensures RootBy(hasher, |c.hashes|, c.hashes[p - 1], p, path) == RootOf(hasher, c)
  {
    hide Hashed, RootBy, TopOf, PeaksOf, IsPeak, WholeSize, PeakPath, SiblingHashes, Whole, Bag;
    var size := |c.hashes|;
    HashedWhole(hasher, c);
    PeaksInside(size);
    var v := PeaksOf(size);
    var hashes := HashesAt(c, v);
    ClimbsToPeak(hasher, c, p, PeakPath(hasher, hashes, k, size));
    PeakInOrder(size, k);
    PeakBags(hasher, hashes, k, size, v[k]);
  }

  lemma PeakInOrder(size: nat, k: nat)
    requires WholeSize(size) && size > 0 && k < |PeaksOf(size)|
    ensures var v := PeaksOf(size); IsPeak(size, v[k]) && (v[k] == size <==> k + 1 == |v|)
  {
    hide PeaksOf, IsPeak, WholeSize;
    var v := PeaksOf(size);
    PeaksFound(size);
    LastPeak(size, v);
    assert v[k] in v;
    assert k + 1 < |v| ==> v[k] < v[|v| - 1];
  }

  lemma HashedWhole(hasher: Hasher, c: Contents)
    requires Hashed(hasher, c)
    ensures Whole(c) && WholeSize(|c.hashes|)
  {
  }

  lemma PeaksFound(size: nat)
    ensures Ascends(PeaksOf(size)) && forall p: Pos :: p in PeaksOf(size) <==> IsPeak(size, p)
  {
    AscendingLists(set p: Pos | 1 <= p <= size && IsPeak(size, p));
  }

  /** What is hashed at a position of the range: the data of a leaf, or the hashes of the children. */
  ghost function Content(c: Contents, p: Pos): Element
    requires Whole(c) && p <= |c.hashes|
  {
    if IsLeaf(p) then
      LeafCountWithin(c, p);
      Data(c.data[LeafCount(p) - 1])
    else
      ChildrenBelow(p);
      Pair(c.hashes[LeftChild(p) - 1], c.hashes[RightChild(p) - 1])
  }

  lemma ContentHash(hasher: Hasher, c: Contents, p: Pos)
    requires Hashed(hasher, c) && p <= |c.hashes|
    ensures Whole(c) && HashWithIndex(hasher, Content(c, p), p - 1) == c.hashes[p - 1]
  {
    hide LeafCount, IsLeaf, LeftChild, RightChild, WholeSize;
    assert HashedAt(hasher, c, p);
  }

  /** What is hashed when the peaks from the `i`-th on are bagged. */
  ghost function Bagged(hasher: Hasher, hashes: seq<Bytes>, i: nat, size: nat): Element
    requires i + 1 < |hashes|
  {
    Pair(hashes[i], Bag(hasher, hashes[i + 1..], size))
  }

  /** `f` is hashed with index `j` when the path is followed from `e` at `pos`. */
  ghost predicate OnWay(hasher: Hasher, size: nat, e: Element, pos: Pos, path: seq<Bytes>, f: Element, j: nat)
    decreases |path|
  {
    || (f == e && j == IndexOf(size, pos))
    || (path != [] &&
        OnWay(hasher, size, Joined(size, pos, NodeHash(hasher, size, e, pos), path[0]), Parent(pos), path[1..], f, j))
  }

  /** `g` is hashed with index `k` when the range, whose peaks have these hashes, is built and its root taken. */
  ghost predicate InRange(hasher: Hasher, c: Contents, hashes: seq<Bytes>, g: Element, k: nat)
    requires Whole(c)
  {
    || (k < |c.hashes| && g == Content(c, k + 1))
    || (k == |c.hashes| && exists i :: 0 <= i < |hashes| - 1 && g == Bagged(hasher, hashes, i, k))
  }

  /** A collision between the path and the range: two different things, one hashed on each side, have the same hash. */
  ghost predicate Clash(hasher: Hasher, c: Contents, hashes: seq<Bytes>, e: Element, pos: Pos, path: seq<Bytes>)
    requires Whole(c)
  {
    exists f, j, g, k ::
      && OnWay(hasher, |c.hashes|, e, pos, path, f, j) && InRange(hasher, c, hashes, g, k)
      && (f != g || j != k) && HashWithIndex(hasher, f, j) == HashWithIndex(hasher, g, k)
  }

  lemma SameThing(
      hasher: Hasher, c: Contents, hashes: seq<Bytes>, e: Element, pos: Pos, path: seq<Bytes>, g: Element, k: nat)
    requires Whole(c) && !Clash(hasher, c, hashes, e, pos, path) && InRange(hasher, c, hashes, g, k)
    requires NodeHash(hasher, |c.hashes|, e, pos) == HashWithIndex(hasher, g, k)
    ensures e == g && k == IndexOf(|c.hashes|, pos)
  {
    hide InRange, HashWithIndex;
    assert OnWay(hasher, |c.hashes|, e, pos, path, e, IndexOf(|c.hashes|, pos));
  }

  /** Without a clash, the hash of a position is that of the same thing at the same place. */
  lemma SamePlace(
      hasher: Hasher, c: Contents, hashes: seq<Bytes>, e: Element, pos: Pos, path: seq<Bytes>, q: Pos)
    requires Hashed(hasher, c) && Whole(c) && q <= |c.hashes| && !Clash(hasher, c, hashes, e, pos, path)
    requires NodeHash(hasher, |c.hashes|, e, pos) == c.hashes[q - 1]
    ensures pos == q && e == Content(c, q)
  {
    hide Hashed, Content, HashWithIndex, WholeSize, Clash;
    ContentHash(hasher, c, q);
    SameThing(hasher, c, hashes, e, pos, path, Content(c, q), IndexOf(|c.hashes|, q));
  }

  /** And the hash of a bag that of the same bag. */
  lemma SameBag(
      hasher: Hasher, c: Contents, hashes: seq<Bytes>, e: Element, pos: Pos, path: seq<Bytes>, j: nat)
    requires Whole(c) && j + 1 < |hashes| && !Clash(hasher, c, hashes, e, pos, path)
    requires NodeHash(hasher, |c.hashes|, e, pos) == Bag(hasher, hashes[j..], |c.hashes|)
    ensures pos > |c.hashes| && e == Bagged(hasher, hashes, j, |c.hashes|)
  {
    hide Content, WholeSize, Bag, Clash;
    BagStep(hasher, hashes, j, |c.hashes|);
    SameThing(hasher, c, hashes, e, pos, path, Bagged(hasher, hashes, j, |c.hashes|), |c.hashes|);
  }

  /** Where the path does not clash, what is left of it does not. */
  lemma NoClashLater(hasher: Hasher, c: Contents, hashes: seq<Bytes>, e: Element, pos: Pos, path: seq<Bytes>)
    requires Whole(c) && path != [] && !Clash(hasher, c, hashes, e, pos, path)
    ensures var f := Joined(|c.hashes|, pos, NodeHash(hasher, |c.hashes|, e, pos), path[0]);
            !Clash(hasher, c, hashes, f, Parent(pos), path[1..])
  {
    hide InRange, HashWithIndex, Joined, Parent, NodeHash;
    var size := |c.hashes|;
    var f := Joined(size, pos, NodeHash(hasher, size, e, pos), path[0]);
    forall g, j | OnWay(hasher, size, f, Parent(pos), path[1..], g, j)
      ensures OnWay(hasher, size, e, pos, path, g, j) {
    }
  }

  /** The hashes of the peaks, from left to right. */
  ghost function PeakHashesOf(c: Contents): seq<Bytes>
    requires Whole(c) && |c.hashes| > 0
  {
    PeaksInside(|c.hashes|);
    HashesAt(c, PeaksOf(|c.hashes|))
  }

  /** The peaks of a range and their hashes. */
  ghost predicate PeakHashes(hasher: Hasher, c: Contents, v: seq<Pos>, hashes: seq<Bytes>) {
    && Hashed(hasher, c) && Whole(c) && |v| == |hashes| > 0 && WholeSize(|c.hashes|)
    && Ascends(v) && (forall p: Pos :: p in v <==> IsPeak(|c.hashes|, p))
    && v[|v| - 1] == |c.hashes|
    && (forall i :: 0 <= i < |v| ==> v[i] <= |c.hashes| && hashes[i] == c.hashes[v[i] - 1])
  }

  lemma RootHashes(hasher: Hasher, c: Contents) returns (v: seq<Pos>, hashes: seq<Bytes>)
    requires Hashed(hasher, c) && |c.hashes| > 0
    ensures Whole(c) && PeakHashes(hasher, c, v, hashes) && RootOf(hasher, c) == Bag(hasher, hashes, |c.hashes|)
    ensures hashes == PeakHashesOf(c)
  {
    hide Hashed, PeaksOf, WholeSize, IsPeak;
    HashedWhole(hasher, c);
    PeaksInside(|c.hashes|);
    PeaksFound(|c.hashes|);
    v := PeaksOf(|c.hashes|);
    LastPeak(|c.hashes|, v);
    hashes := HashesAt(c, v);
    assert forall i :: 0 <= i < |v| ==> v[i] in v;
  }

  lemma PeaksThere(hasher: Hasher, c: Contents, v: seq<Pos>, hashes: seq<Bytes>)
    requires PeakHashes(hasher, c, v, hashes)
    ensures |v| == |hashes| > 0 && Whole(c) && WholeSize(|c.hashes|) && Hashed(hasher, c)
  {
    hide Hashed;
  }

  lemma EndIsPeak(hasher: Hasher, c: Contents, v: seq<Pos>, hashes: seq<Bytes>)
    requires PeakHashes(hasher, c, v, hashes)
    ensures |c.hashes| > 0 && IsPeak(|c.hashes|, |c.hashes|)
  {
    assert v[|v| - 1] in v;
  }

  lemma PeakAt(hasher: Hasher, c: Contents, v: seq<Pos>, hashes: seq<Bytes>, j: nat)
    requires PeakHashes(hasher, c, v, hashes) && j < |v|
    ensures |v| == |hashes| && v[j] <= |c.hashes| && hashes[j] == c.hashes[v[j] - 1]
    ensures j + 1 == |v| <==> v[j] == |c.hashes|
  {
    hide Hashed, WholeSize;
    if j + 1 < |v| { assert v[j] < v[|v| - 1]; }
  }

  /** A hash taken outside the range, if it bags peaks, bags two or more of them. */
  lemma BagOfMore(
      hasher: Hasher, c: Contents, v: seq<Pos>, hashes: seq<Bytes>, e: Element, pos: Pos, path: seq<Bytes>, j: nat)
    requires PeakHashes(hasher, c, v, hashes) && j < |v| == |hashes| && pos > |c.hashes|
    requires !Clash(hasher, c, hashes, e, pos, path)
    requires NodeHash(hasher, |c.hashes|, e, pos) == Bag(hasher, hashes[j..], |c.hashes|)
    ensures j + 1 < |v| && e == Bagged(hasher, hashes, j, |c.hashes|)
  {
    hide Bag, Clash, PeakHashes, Content, Bagged, NodeHash, Hashed, WholeSize;
    PeaksThere(hasher, c, v, hashes);
    BagStep(hasher, hashes, j, |c.hashes|);
    PeakAt(hasher, c, v, hashes, j);
    if j + 1 == |v| {
      SamePlace(hasher, c, hashes, e, pos, path, v[j]);
    } else {
      SameBag(hasher, c, hashes, e, pos, path, j);
    }
  }

  /** A hash taken at a position of the range, if it bags peaks, is the last of them. */
  lemma BagOfOne(
      hasher: Hasher, c: Contents, v: seq<Pos>, hashes: seq<Bytes>, e: Element, p: Pos, path: seq<Bytes>, j: nat)
    requires PeakHashes(hasher, c, v, hashes) && j < |v| == |hashes| && p <= |c.hashes|
    requires !Clash(hasher, c, hashes, e, p, path)
    requires NodeHash(hasher, |c.hashes|, e, p) == Bag(hasher, hashes[j..], |c.hashes|)
    ensures j + 1 == |v| && p == |c.hashes| && NodeHash(hasher, |c.hashes|, e, p) == c.hashes[p - 1]
  {
    hide Bag, Clash, PeakHashes, Content, Bagged, NodeHash, Hashed, WholeSize;
    PeaksThere(hasher, c, v, hashes);
    BagStep(hasher, hashes, j, |c.hashes|);
    PeakAt(hasher, c, v, hashes, j);
    if j + 1 == |v| {
      SamePlace(hasher, c, hashes, e, p, path, v[j]);
    } else {
      SameBag(hasher, c, hashes, e, p, path, j);
    }
  }

  /** Outside the range only a bag of peaks leads to the root. */
  lemma {:induction false} OnlyBags(
      hasher: Hasher, c: Contents, v: seq<Pos>, hashes: seq<Bytes>, e: Element, pos: Pos, path: seq<Bytes>)
    requires PeakHashes(hasher, c, v, hashes) && pos > |c.hashes| && !Clash(hasher, c, hashes, e, pos, path)
    requires RootBy(hasher, |c.hashes|, NodeHash(hasher, |c.hashes|, e, pos), pos, path) ==
             Bag(hasher, hashes, |c.hashes|)
    ensures |path| < |v| == |hashes|
    ensures NodeHash(hasher, |c.hashes|, e, pos) == Bag(hasher, hashes[|path|..], |c.hashes|)
    decreases |path|
  {
    hide Bag, Clash, PeakHashes, Parent, RootBy, Joined, NodeHash, Hashed, WholeSize, LeafCount;
    var size, hash := |c.hashes|, NodeHash(hasher, |c.hashes|, e, pos);
    PeaksThere(hasher, c, v, hashes);
    if path == [] {
      assert hashes[0..] == hashes;
      RootByEnd(hasher, size, hash, pos);
    } else {
      Family(pos);
      var f := Joined(size, pos, hash, path[0]);
      assert path == [path[0]] + path[1..];
      JoinedOutside(size, pos, hash, path[0]);
      RootByStep(hasher, size, hash, pos, path[0], path[1..]);
      NoClashLater(hasher, c, hashes, e, pos, path);
      OnlyBags(hasher, c, v, hashes, f, Parent(pos), path[1..]);
      BagOfMore(hasher, c, v, hashes, f, Parent(pos), path[1..], |path| - 1);
    }
  }

  /** At a peak only its own hash leads to the root. */
  lemma OnlyPeak(
      hasher: Hasher, c: Contents, v: seq<Pos>, hashes: seq<Bytes>, e: Element, p: Pos, path: seq<Bytes>)
    requires PeakHashes(hasher, c, v, hashes) && IsPeak(|c.hashes|, p) && !Clash(hasher, c, hashes, e, p, path)
    requires RootBy(hasher, |c.hashes|, NodeHash(hasher, |c.hashes|, e, p), p, path) == Bag(hasher, hashes, |c.hashes|)
    ensures NodeHash(hasher, |c.hashes|, e, p) == c.hashes[p - 1]
  {
    hide Bag, Clash, PeakHashes, NodeHash, RootBy, Joined, WholeSize, Content, Hashed, Parent;
    var size, hash := |c.hashes|, NodeHash(hasher, |c.hashes|, e, p);
    PeaksThere(hasher, c, v, hashes);
    if path == [] {
      assert hashes[0..] == hashes;
      RootByEnd(hasher, size, hash, p);
      BagOfOne(hasher, c, v, hashes, e, p, path, 0);
    } else {
      var f := Joined(size, p, hash, path[0]);
      var j := |path| - 1;
      assert path == [path[0]] + path[1..];
      JoinedAtPeak(size, p, hash, path[0]);
      RootByStep(hasher, size, hash, p, path[0], path[1..]);
      NoClashLater(hasher, c, hashes, e, p, path);
      OnlyBags(hasher, c, v, hashes, f, Parent(p), path[1..]);
      BagOfMore(hasher, c, v, hashes, f, Parent(p), path[1..], j);
      if p == size {
        BagOfOne(hasher, c, v, hashes, e, p, path, j + 1);
      } else {
        PeakAt(hasher, c, v, hashes, j);
        SamePlace(hasher, c, hashes, e, p, path, v[j]);
      }
    }
  }

  /** Below the peaks a parent is hashed of its children as the path hashes them. */
  lemma ContentJoined(c: Contents, p: Pos)
    requires Whole(c) && Parent(p) <= |c.hashes|
    ensures p <= |c.hashes| && Sibling(p) <= |c.hashes|
    ensures Content(c, Parent(p)) == Joined(|c.hashes|, p, c.hashes[p - 1], c.hashes[Sibling(p) - 1])
  {
    hide Parent, Sibling, IsRight, IsLeaf, LeftChild, RightChild, Joined, WholeSize, LeafCount;
    RightOrLeft(p);
    JoinedBelow(|c.hashes|, p, c.hashes[p - 1], c.hashes[Sibling(p) - 1]);
  }

  /** Nowhere in the range does any hash but the one there lead to the root, unless path and range clash. */
  lemma {:induction false} OnlyOwnHash(
      hasher: Hasher, c: Contents, v: seq<Pos>, hashes: seq<Bytes>, e: Element, p: Pos, path: seq<Bytes>)
    requires PeakHashes(hasher, c, v, hashes) && p <= |c.hashes| && !Clash(hasher, c, hashes, e, p, path)
    requires RootBy(hasher, |c.hashes|, NodeHash(hasher, |c.hashes|, e, p), p, path) == Bag(hasher, hashes, |c.hashes|)
    ensures NodeHash(hasher, |c.hashes|, e, p) == c.hashes[p - 1]
    decreases |path|
  {
    hide Bag, Clash, Parent, Sibling, PeakHashes, WholeSize, HashWithIndex, RootBy, Joined, Content, Hashed;
    PeaksThere(hasher, c, v, hashes);
    EndIsPeak(hasher, c, v, hashes);
    var size, hash := |c.hashes|, NodeHash(hasher, |c.hashes|, e, p);
    if IsPeak(size, p) {
      OnlyPeak(hasher, c, v, hashes, e, p, path);
    } else if path == [] {
      assert hashes[0..] == hashes;
      RootByEnd(hasher, size, hash, p);
      BagOfOne(hasher, c, v, hashes, e, p, path, 0);
    } else {
      var f, q := Joined(size, p, hash, path[0]), Parent(p);
      assert path == [path[0]] + path[1..];
      RootByStep(hasher, size, hash, p, path[0], path[1..]);
      NoClashLater(hasher, c, hashes, e, p, path);
      OnlyOwnHash(hasher, c, v, hashes, f, q, path[1..]);
      SamePlace(hasher, c, hashes, f, q, path[1..], q);
      ContentJoined(c, p);
      JoinedBelow(size, p, hash, path[0]);
      JoinedBelow(size, p, c.hashes[p - 1], c.hashes[Sibling(p) - 1]);
    }
  }

  /**
   A path that leads to the root does so for a leaf of the range and its own data. For anything else
   it gives a collision: something hashed while it is followed has the hash of another thing that was
   hashed for the range or its root.
   */
  lemma ProvesOnlyLeaves(hasher: Hasher, c: Contents, data: Bytes, pos: Pos, path: seq<Bytes>)
    requires Hashed(hasher, c) && |c.hashes| > 0 && Whole(c)
    requires RootBy(hasher, |c.hashes|, NodeHash(hasher, |c.hashes|, Data(data), pos), pos, path) == RootOf(hasher, c)
    ensures
      || Clash(hasher, c, PeakHashesOf(c), Data(data), pos, path)
      || (&& pos <= |c.hashes| && IsLeaf(pos) && 0 < LeafCount(pos) <= |c.data|
          && c.data[LeafCount(pos) - 1] == data)
  {
    hide Bag, Hashed, PeakHashes, Clash, RootOf, IsLeaf, LeafCount, WholeSize, RootBy, HashWithIndex;
    hide PeakHashesOf, Bagged;
    var v, hashes := RootHashes(hasher, c);
    if !Clash(hasher, c, hashes, Data(data), pos, path) {
      PeaksThere(hasher, c, v, hashes);
      if pos <= |c.hashes| {
        OnlyOwnHash(hasher, c, v, hashes, Data(data), pos, path);
        LeafCountWithin(c, pos);
        SamePlace(hasher, c, hashes, Data(data), pos, path, pos);
      } else {
        OnlyBags(hasher, c, v, hashes, Data(data), pos, path);
        BagOfMore(hasher, c, v, hashes, Data(data), pos, path, |path|);
        BagIsPair(hasher, hashes, |path|, |c.hashes|);
      }
    }
  }

  lemma BagIsPair(hasher: Hasher, hashes: seq<Bytes>, i: nat, size: nat)
    requires i + 1 < |hashes|
    ensures Bagged(hasher, hashes, i, size).Pair?
  {
  }

  /** Nothing but its hash is compared with a range of one leaf: another hash does not clash with it. */
  lemma OtherHashDoesNotClash(hasher: Hasher, c: Contents, data: Bytes)
    requires Hashed(hasher, c) && Whole(c) && |c.hashes| == 1 && hasher.leaf(data, 0) != c.hashes[0]
    ensures !Clash(hasher, c, PeakHashesOf(c), Data(data), 1, [])
  {
    hide Hashed, WholeSize, LeafCount, Content, PeakHashesOf;
    ContentHash(hasher, c, 1);
    OnePeak(c);
  }

  lemma {:induction false} AtLeastCount(v: seq<Pos>)
    requires Ascends(v) && v != []
    ensures v[|v| - 1] >= |v|
    decreases |v|
  {
    if |v| > 1 { AtLeastCount(v[..|v| - 1]); }
  }

  lemma OnePeak(c: Contents)
    requires Whole(c) && |c.hashes| == 1
    ensures |PeakHashesOf(c)| == 1
  {
    hide WholeSize, LeafCount, PeaksOf, IsPeak;
    PeaksFound(1);
    PeaksInside(1);
    var v := PeaksOf(1);
    LastPeak(1, v);
    AtLeastCount(v);
  }

  lemma OnWayStep(
      hasher: Hasher, size: nat, e: Element, pos: Pos, sibling: Bytes, rest: seq<Bytes>, f: Element, j: nat)
    requires OnWay(hasher, size, e, pos, [sibling] + rest, f, j) && (f != e || j != IndexOf(size, pos))
    ensures OnWay(hasher, size, Joined(size, pos, NodeHash(hasher, size, e, pos), sibling), Parent(pos), rest, f, j)
  {
    hide Joined, Parent, NodeHash;
    assert ([sibling] + rest)[1..] == rest;
  }

  lemma OnWayEnd(hasher: Hasher, size: nat, e: Element, pos: Pos, f: Element, j: nat)
    requires OnWay(hasher, size, e, pos, [], f, j)
    ensures f == e && j == IndexOf(size, pos)
  {
  }

  lemma {:induction false} LeftPeaksHashedInRange(
      hasher: Hasher, c: Contents, hashes: seq<Bytes>, i: nat, pos: Pos, f: Element, j: nat)
    requires Whole(c) && i + 1 < |hashes| && pos > |c.hashes|
    requires OnWay(hasher, |c.hashes|, Bagged(hasher, hashes, i, |c.hashes|), pos, Reverse(hashes[..i]), f, j)
    ensures InRange(hasher, c, hashes, f, j)
    decreases i
  {
    hide Bag, Joined, Parent, Content, WholeSize, OnWay;
    var size, e := |c.hashes|, Bagged(hasher, hashes, i, |c.hashes|);
    if f != e || j != size {
      if i == 0 {
        assert Reverse(hashes[..i]) == [];
        OnWayEnd(hasher, size, e, pos, f, j);
      } else {
        BagStep(hasher, hashes, i, size);
        assert Reverse(hashes[..i]) == [hashes[i - 1]] + Reverse(hashes[..i - 1]);
        OnWayStep(hasher, size, e, pos, hashes[i - 1], Reverse(hashes[..i - 1]), f, j);
        JoinedOutside(size, pos, NodeHash(hasher, size, e, pos), hashes[i - 1]);
        Family(pos);
        LeftPeaksHashedInRange(hasher, c, hashes, i - 1, Parent(pos), f, j);
      }
    }
  }

  lemma PeakHashedInRange(
      hasher: Hasher, c: Contents, hashes: seq<Bytes>, k: nat, e: Element, pos: Pos, f: Element, j: nat)
    requires Whole(c) && k < |hashes| && IsPeak(|c.hashes|, pos) && (pos == |c.hashes| <==> k + 1 == |hashes|)
    requires NodeHash(hasher, |c.hashes|, e, pos) == hashes[k]
    requires OnWay(hasher, |c.hashes|, e, pos, PeakPath(hasher, hashes, k, |c.hashes|), f, j)
    requires f != e || j != IndexOf(|c.hashes|, pos)
    ensures InRange(hasher, c, hashes, f, j)
  {
    hide Bag, Joined, Parent, Content, InRange, NodeHash, IsPeak, OnWay, WholeSize;
    var size, path := |c.hashes|, PeakPath(hasher, hashes, k, |c.hashes|);
    if k + 1 < |hashes| {
      var rhs := Bag(hasher, hashes[k + 1..], size);
      assert path == [rhs] + Reverse(hashes[..k]);
      OnWayStep(hasher, size, e, pos, rhs, Reverse(hashes[..k]), f, j);
      JoinedAtPeak(size, pos, hashes[k], rhs);
      LeftPeaksHashedInRange(hasher, c, hashes, k, Parent(pos), f, j);
    } else if k > 0 {
      assert path == [hashes[k - 1]] + Reverse(hashes[..k - 1]);
      OnWayStep(hasher, size, e, pos, hashes[k - 1], Reverse(hashes[..k - 1]), f, j);
      JoinedAtPeak(size, pos, hashes[k], hashes[k - 1]);
      BagStep(hasher, hashes, k, size);
      LeftPeaksHashedInRange(hasher, c, hashes, k - 1, Parent(pos), f, j);
    } else {
      assert path == [];
      OnWayEnd(hasher, size, e, pos, f, j);
    }
  }

  lemma {:induction false} SiblingsHashedInRange(
      hasher: Hasher, c: Contents, hashes: seq<Bytes>, k: nat, p: Pos, f: Element, j: nat)
    requires Hashed(hasher, c) && Whole(c) && p <= |c.hashes| && k < |hashes|
    requires var top := TopOf(p, |c.hashes|);
             && IsPeak(|c.hashes|, top) && hashes[k] == c.hashes[top - 1]
             && (top == |c.hashes| <==> k + 1 == |hashes|)
    requires OnWay(hasher, |c.hashes|, Content(c, p), p,
                   SiblingHashes(c, p) + PeakPath(hasher, hashes, k, |c.hashes|), f, j)
    ensures InRange(hasher, c, hashes, f, j)
    decreases |c.hashes| - p
  {
    hide Hashed, Joined, Parent, Sibling, TopOf, SiblingHashes, PeakPath, Content, WholeSize, HashWithIndex, OnWay;
    hide IsPeak;
    var size, e, rest := |c.hashes|, Content(c, p), PeakPath(hasher, hashes, k, |c.hashes|);
    if f != e || j != IndexOf(size, p) {
      ContentHash(hasher, c, p);
      ParentAbove(p);
      TopStep(p, size);
      SiblingHashesStep(c, p);
      if Parent(p) > size {
        assert SiblingHashes(c, p) + rest == rest;
        PeakHashedInRange(hasher, c, hashes, k, e, p, f, j);
      } else {
        ContentJoined(c, p);
        var sibling, more := c.hashes[Sibling(p) - 1], SiblingHashes(c, Parent(p)) + rest;
        assert SiblingHashes(c, p) + rest == [sibling] + more;
        OnWayStep(hasher, size, e, p, sibling, more, f, j);
        SiblingsHashedInRange(hasher, c, hashes, k, Parent(p), f, j);
      }
    }
  }

  /** Whoever follows a right path hashes nothing that was not hashed for the range and its root. */
  lemma RightPathHashesRange(hasher: Hasher, c: Contents, p: Pos, k: nat, path: seq<Bytes>, f: Element, j: nat)
    requires Hashed(hasher, c) && Whole(c) && p <= |c.hashes| && RightPath(hasher, c, p, k, path)
    requires OnWay(hasher, |c.hashes|, Content(c, p), p, path, f, j)
    ensures InRange(hasher, c, PeakHashesOf(c), f, j)
  {
    hide Hashed, TopOf, PeaksOf, IsPeak, WholeSize, PeakPath, SiblingHashes, Content, OnWay, InRange;
    PeaksInside(|c.hashes|);
    PeakInOrder(|c.hashes|, k);
    SiblingsHashedInRange(hasher, c, PeakHashesOf(c), k, p, f, j);
  }
}
