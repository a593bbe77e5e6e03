/** The prunable Merkle mountain range over a backend: push, prune, rewind, root and Merkle proofs. */
module Pmmrs {
  import opened Options
  import opened Binary
  import opened Mmr
  import opened Navigation
  import opened Pruning
  import opened Chunks
  import opened SizeIndex
  import opened FixedFiles
  import opened VariableFiles
  import opened PruneLists
  import opened LeafSets
  import opened BackendState
  import opened Backends
  import opened Merkle
  import opened MerkleProofs
  import opened Collections
  import opened Bitmaps

  /** Where a rewind to `position` ends: the first whole size from there on. */
  ghost predicate NextWhole(position: nat, size: nat) {
    position <= size && WholeSize(size) && forall s: nat :: position <= s < size ==> !WholeSize(s)
  }

  class PMMR {
    const backend: PMMRBackend
    const hasher: Hasher
    var lastPos: nat

    ghost predicate Valid()
      reads this, backend, backend.hashFile, backend.dataFile, backend.dataFile.sizeFile, backend.pruneList
    {
      && backend.Valid()
      && Produces(hasher, HASH_LEN)
      && Hashed(hasher, backend.now) && Hashed(hasher, backend.saved)
      && lastPos == |backend.now.hashes|
    }

    constructor At(storage: PMMRBackend, hashing: Hasher, last: nat)
      requires last == |storage.now.hashes| && storage.Valid() && Produces(hashing, HASH_LEN)
      requires Hashed(hashing, storage.now) && Hashed(hashing, storage.saved)
      ensures Valid() && backend == storage && hasher == hashing
    {
      backend, hasher, lastPos := storage, hashing, last;
    }

    /** Adds a leaf. No left sibling it needs is ever missing, however much has been pruned. */
    method Push(element: Bytes) returns (pos: Option<Pos>)
      requires Valid()
      requires Delimits(backend.dataFile.reader, element) && |element| < MAX_SIZE
      requires |Concat(backend.dataFile.working)| + |element| < MAX_OFFSET
      modifies this`lastPos, backend`now, backend.leafSet`bitmap
      modifies backend.hashFile`buffer, backend.hashFile`working
      modifies backend.dataFile`buffer, backend.dataFile`working
      modifies backend.dataFile.sizeFile`buffer, backend.dataFile.sizeFile`working
      ensures Valid()
      ensures pos == Some(|old(backend.now).hashes| + 1)
      ensures exists hashes :: backend.now == Extend(old(backend.now), hashes, element)
      ensures backend.dataFile.working == old(backend.dataFile.working) + [element]
      ensures backend.leafSet.bitmap ==
              old(backend.leafSet.bitmap) + if backend.prunable then {|old(backend.now).hashes| + 1} else {}
    {
      hide PMMRBackend.Valid, Hashed, Delimits, Compacted, LeafCount, WholeSize, TestBit;
      var elmtPos: Pos := lastPos + 1;
      var hashes := PushHashes(element);
      if hashes.None? {
        return None;
      }
      var ok := backend.Append(element, hashes.value);
      lastPos := lastPos + |hashes.value|;
      return Some(elmtPos);
    }

    /** The hashes of a new leaf and of the parents it completes, reading the peaks they need. */
    method PushHashes(element: Bytes) returns (result: Option<seq<Bytes>>)
      requires Valid()
      ensures result.Some? && AllOfSize(result.value, HASH_LEN)
      ensures Hashed(hasher, Extend(backend.now, result.value, element))
      ensures Whole(Extend(backend.now, result.value, element))
    {
      hide *;
      ghost var size, n := lastPos, LeafCount(lastPos);
      Unfold();
      CanRead();
      var pos: Pos := lastPos + 1;
      var currentHash := hasher.leaf(element, pos - 1);
      var hashes := [currentHash];
      var peakMap, height := PeakMapHeight(lastPos);
      WholeCoord(size, peakMap, height);
      if height != 0 {
        return None;
      }
      var peak := 1;
      ghost var j := 0;
      PushStart(hasher, backend.now, element, hashes);
      while TestBit(peakMap, peak)
        invariant pos == size + 1 + j && j <= TrailingOnes(n) && peak == Pow2(j) && peak > 0
        invariant |hashes| == j + 1 && hashes[j] == currentHash
        invariant Pushed(hasher, backend.now, element, hashes) && AllOfSize(hashes, HASH_LEN)
        decreases TrailingOnes(n) - j
      {
        PushTest(n, j);
        NewSibling(size, j);
        SiblingReadable(j);
        var leftSibling := pos + 1 - 2 * peak;
        var leftHash := backend.GetFromFile(leftSibling);
        if leftHash.None? {
          return None;
        }
        peak := peak * 2;
        pos := pos + 1;
        currentHash := hasher.node(leftHash.value, currentHash, pos - 1);
        PushMore(hasher, backend.now, element, hashes, currentHash);
        hashes := hashes + [currentHash];
        j := j + 1;
      }
      PushTest(n, j);
      PushedIsHashed(hasher, backend.now, element, hashes);
      HashedIsWhole(hasher, Extend(backend.now, hashes, element));
      return Some(hashes);
    }

    lemma Unfold()
      requires Valid()
      ensures backend.Valid() && Produces(hasher, HASH_LEN) && Hashed(hasher, backend.now) && Whole(backend.now)
      ensures lastPos == |backend.now.hashes| && WholeSize(lastPos) && UpTo(backend.pruneList.leaves, lastPos)
    {
      hide FixedFile.Valid, VariableFile.Valid, PruneList.Valid, HashedAt, WholeSize;
    }

    lemma CanRead()
      requires Valid()
      ensures backend.Readable()
    {
      hide PMMRBackend.Valid, PMMRBackend.Readable, Hashed, Produces;
      backend.CanRead();
    }

    lemma SiblingReadable(j: nat)
      requires Valid() && IsPeak(lastPos, Sibling(lastPos + 1 + j))
      ensures Sibling(lastPos + 1 + j) <= |backend.now.hashes|
      ensures HashAt(backend.pruneList.leaves, backend.now, Sibling(lastPos + 1 + j)) ==
              Some(backend.now.hashes[Sibling(lastPos + 1 + j) - 1])
    {
      hide PMMRBackend.Valid, WholeSize, Compacted, Sibling, Hashed, UpTo;
      Unfold();
      PeakIsKept(backend.pruneList.leaves, lastPos, Sibling(lastPos + 1 + j));
    }

    /** Removes a leaf from the leaf set; its data stays in the file. */
    method Prune(position: Pos) returns (result: Option<bool>)
      requires Valid() && backend.prunable
      modifies backend.leafSet`bitmap
      ensures Valid()
      ensures result.None? <==> !IsLeaf(position)
      ensures result == Some(true) <==>
                IsLeaf(position) && position in old(backend.leafSet.bitmap) &&
                HashAt(backend.pruneList.leaves, backend.now, position).Some?
      ensures backend.leafSet.bitmap == old(backend.leafSet.bitmap) - if result == Some(true) then {position} else {}
    {
      hide PMMRBackend.Valid, PMMRBackend.Readable, Hashed, Compacted, IsLeaf;
      CanRead();
      var leaf := LeafTest(position);
      if !leaf {
        return None;
      }
      var hash := backend.GetHash(position);
      if hash.None? {
        return Some(false);
      }
      backend.Remove(position);
      return Some(true);
    }

    /** Rewinds to the first whole size from `position` on. */
    method Rewind(position: nat, rewindRmPos: set<Pos>)
      requires Valid()
      requires backend.hashFile.buffer == [] && backend.dataFile.buffer == []
      requires backend.now.hashes <= backend.saved.hashes && backend.now.data <= backend.saved.data
      requires position <= lastPos && UpTo(backend.pruneList.leaves, position)
      modifies this`lastPos, backend`now, backend.leafSet`bitmap
      modifies backend.hashFile`bufferStartPos, backend.hashFile`bufferStartPosBak, backend.hashFile`working
      modifies backend.dataFile`bufferStartPos, backend.dataFile`bufferStartPosBak, backend.dataFile`working
      modifies backend.dataFile.sizeFile`bufferStartPos, backend.dataFile.sizeFile`bufferStartPosBak
      modifies backend.dataFile.sizeFile`working
      ensures Valid() && backend.hashFile.buffer == [] && backend.dataFile.buffer == []
      ensures NextWhole(position, lastPos)
      ensures lastPos <= |backend.saved.hashes| && LeafCount(lastPos) <= |backend.saved.data|
      ensures backend.now == Cut(backend.saved, lastPos)
      ensures backend.leafSet.bitmap ==
              if backend.prunable then Rewound(old(backend.leafSet.bitmap), lastPos, rewindRmPos)
              else old(backend.leafSet.bitmap)
    {
      hide PMMRBackend.Valid, WholeSize, Hashed, LeafCount, Rewound;
      Unfold();
      var pos := WholeFrom(position, lastPos);
      CutIsHashed(hasher, backend.saved, pos);
      backend.Rewind(pos, rewindRmPos);
      lastPos := pos;
    }

    /** Reads the hashes of peaks: none of them is ever left out. */
    method ReadPeaks(peaks: seq<Pos>) returns (hashes: seq<Bytes>)
      requires Valid() && forall p :: p in peaks ==> p <= lastPos && IsPeak(lastPos, p)
      ensures forall p :: p in peaks ==> p <= |backend.now.hashes|
      ensures hashes == HashesAt(backend.now, peaks)
    {
      hide PMMRBackend.Valid, PMMRBackend.Readable, WholeSize, Hashed, Compacted, IsPeak;
      Unfold();
      CanRead();
      hashes := [];
      for i := 0 to |peaks|
        invariant forall p :: p in peaks[..i] ==> p <= |backend.now.hashes|
        invariant hashes == HashesAt(backend.now, peaks[..i])
      {
        assert peaks[i] in peaks;
        PeakIsKept(backend.pruneList.leaves, lastPos, peaks[i]);
        assert peaks[..i + 1] == peaks[..i] + [peaks[i]];
        var hash := backend.GetFromFile(peaks[i]);
        if hash.Some? {
          hashes := hashes + [hash.value];
        }
      }
      assert peaks[..|peaks|] == peaks;
    }

    /** The hashes of all peaks. */
    method PeakHashes() returns (hashes: seq<Bytes>)
      requires Valid() && lastPos > 0
      ensures forall p :: p in PeaksOf(lastPos) ==> p <= |backend.now.hashes|
      ensures hashes == HashesAt(backend.now, PeaksOf(lastPos))
    {
      hide PMMRBackend.Valid, WholeSize, Hashed, PeaksOf, IsPeak;
      Unfold();
      PeaksInside(lastPos);
      var peaks := Peaks(lastPos);
      PeaksAreThose(lastPos, peaks);
      hashes := ReadPeaks(peaks);
    }

    /** The root is that of everything ever put in the range, pruned or not. */
    method Root(zeroHash: Bytes) returns (root: Option<Bytes>)
      requires Valid()
      ensures lastPos == 0 ==> root == Some(zeroHash)
      ensures lastPos > 0 ==> Whole(backend.now) && root == Some(RootOf(hasher, backend.now))
    {
      hide PMMRBackend.Valid, WholeSize, Hashed, PeaksOf, Produces;
      Unfold();
      if lastPos == 0 {
        return Some(zeroHash);
      }
      PeaksInside(lastPos);
      var peaks := PeakHashes();
      root := BagAll(peaks);
    }

    /** Hashes peaks together from right to left. */
    method BagAll(peaks: seq<Bytes>) returns (bag: Option<Bytes>)
      ensures bag == if peaks == [] then None else Some(Bag(hasher, peaks, lastPos))
    {
      bag := None;
      var i := |peaks|;
      while i > 0
        invariant 0 <= i <= |peaks|
        invariant bag == if i == |peaks| then None else Some(Bag(hasher, peaks[i..], lastPos))
      {
        i := i - 1;
        assert i + 1 < |peaks| ==> peaks[i..][1..] == peaks[i + 1..];
        bag := match bag
          case None => Some(peaks[i])
          case Some(rhash) => Some(hasher.node(peaks[i], rhash, lastPos));
      }
      assert peaks[0..] == peaks;
    }

    /** What bags a peak: the peaks to the right of it as one, if any, then those to the left. */
    method PathOfPeak(peakPos: Pos) returns (path: seq<Bytes>, ghost k: nat)
      requires Valid() && lastPos > 0 && IsPeak(lastPos, peakPos)
      ensures k < |PeaksOf(lastPos)| && PeaksOf(lastPos)[k] == peakPos
      ensures forall p :: p in PeaksOf(lastPos) ==> p <= |backend.now.hashes|
      ensures path == PeakPath(hasher, HashesAt(backend.now, PeaksOf(lastPos)), k, lastPos)
    {
      hide *;
      Unfold();
      PeaksInside(lastPos);
      var peaks := Peaks(lastPos);
      PeaksAreThose(lastPos, peaks);
      k :| 0 <= k < |peaks| && peaks[k] == peakPos;
      Split(peaks, k);
      var left, right := Below(peaks, peakPos), Above(peaks, peakPos);
      Parts(peaks, k, left, right);
      ghost var hashes := SplitHashes(backend.now, peaks, k, left, right);
      var rightHashes := ReadPeaks(right);
      var rhs := BagAll(rightHashes);
      path := ReadPeaks(left);
      if rhs.Some? {
        path := path + [rhs.value];
      }
      path := Reverse(path);
      BaggedPath(hasher, hashes, k, lastPos, path);
    }

    /** Reads the hashes of the siblings on the way from a leaf that is not pruned to its peak. */
    method ReadBranch(pos: Pos) returns (hashes: seq<Bytes>, peakPos: Pos)
      requires Valid() && pos <= lastPos && IsLeaf(pos) && pos !in backend.pruneList.leaves
      ensures hashes == SiblingHashes(backend.now, pos) && peakPos == TopOf(pos, lastPos)
    {
      hide *;
      Unfold();
      CanRead();
      var branch := FamilyBranch(pos, lastPos);
      hashes := [];
      peakPos := pos;
      UnderSelf(pos);
      for i := 0 to |branch|
        invariant peakPos <= lastPos && Under(pos, peakPos) && branch[i..] == BranchUp(peakPos, lastPos)
        invariant hashes + SiblingHashes(backend.now, peakPos) == SiblingHashes(backend.now, pos)
        invariant TopOf(peakPos, lastPos) == TopOf(pos, lastPos)
      {
        BranchUpStep(peakPos, lastPos);
        BranchHash(backend.pruneList.leaves, backend.now, pos, peakPos);
        SiblingHashesStep(backend.now, peakPos);
        TopStep(peakPos, lastPos);
        var hash := backend.GetFromFile(branch[i].1);
        if hash.Some? {
          hashes := hashes + [hash.value];
        }
        peakPos := branch[i].0;
      }
      BranchUpStep(peakPos, lastPos);
      SiblingHashesStep(backend.now, peakPos);
      TopStep(peakPos, lastPos);
    }

    /**
     The Merkle proof of a leaf that has not been removed. However much has been pruned and compacted,
     no hash it needs is missing as long as the leaf itself is not pruned, and it leads to the root.
     */
    method ProofOf(pos: Pos) returns (proof: Option<MerkleProof>)
      requires Valid()
      requires IsLeaf(pos) && (backend.prunable ==> pos in backend.leafSet.bitmap) ==> pos !in backend.pruneList.leaves
      ensures proof.Some? <==> IsLeaf(pos) && (backend.prunable ==> pos in backend.leafSet.bitmap) && pos <= lastPos
      ensures proof.Some? ==>
                && Whole(backend.now) && lastPos == |backend.now.hashes| && proof.value.mmrSize == lastPos
                && RootBy(hasher, lastPos, backend.now.hashes[pos - 1], pos, proof.value.path) ==
                  RootOf(hasher, backend.now)
    {
      hide PMMRBackend.Valid, PMMRBackend.Readable, WholeSize, Hashed, Compacted, IsLeaf, Valid, RootBy, RootOf, TopOf;
      Unfold();
      CanRead();
      var leaf := LeafTest(pos);
      if !leaf {
        return None;
      }
      if pos !in backend.pruneList.leaves { NotCompacted(backend.pruneList.leaves, pos); }
      var hash := backend.GetHash(pos);
      if hash.None? {
        return None;
      }
      var path, peakPos := ReadBranch(pos);
      BranchTop(pos, lastPos);
      var above, k := PathOfPeak(peakPos);
      RightPathVerifies(hasher, backend.now, pos, k, path + above);
      return Some(MerkleProof(lastPos, path + above));
    }
  }

  lemma HashedIsWhole(hasher: Hasher, c: Contents)
    requires Hashed(hasher, c)
    ensures Whole(c)
  {
  }

  /** Steps over the parents that belong to a position, up to a size known to be whole. */
  method WholeFrom(position: nat, ghost limit: nat) returns (pos: nat)
    requires position <= limit && WholeSize(limit)
    ensures NextWhole(position, pos) && pos <= limit
  {
    hide WholeSize, Height;
    pos := position;
    var height := BintreePostorderHeight(pos + 1);
    WholeTest(pos, height);
    while height > 0
      invariant height == 0 <==> WholeSize(pos)
      invariant position <= pos <= limit
      invariant forall s: nat :: position <= s < pos ==> !WholeSize(s)
      decreases limit - pos
    {
      pos := pos + 1;
      height := BintreePostorderHeight(pos + 1);
      WholeTest(pos, height);
    }
  }

  lemma WholeTest(pos: nat, height: nat)
    requires height == Height(pos + 1)
    ensures height == 0 <==> WholeSize(pos)
  {
  }

  lemma PushStart(hasher: Hasher, c: Contents, element: Bytes, hashes: seq<Bytes>)
    requires Produces(hasher, HASH_LEN) && hashes == [hasher.leaf(element, |c.hashes|)]
    ensures Pushed(hasher, c, element, hashes) && AllOfSize(hashes, HASH_LEN)
    ensures Pow2(0) == 1
  {
  }

  lemma PushMore(hasher: Hasher, c: Contents, element: Bytes, hashes: seq<Bytes>, next: Bytes)
    requires Produces(hasher, HASH_LEN) && Pushed(hasher, c, element, hashes) && AllOfSize(hashes, HASH_LEN)
    requires Sibling(|c.hashes| + |hashes|) <= |c.hashes|
    requires next ==
             hasher.node(c.hashes[Sibling(|c.hashes| + |hashes|) - 1], hashes[|hashes| - 1], |c.hashes| + |hashes|)
    ensures Pushed(hasher, c, element, hashes + [next]) && AllOfSize(hashes + [next], HASH_LEN)
  {
    hide Sibling;
    var all := hashes + [next];
    forall i | 0 < i < |all| ensures PushedAt(hasher, c, all, i) {
      if i < |hashes| { assert PushedAt(hasher, c, hashes, i); }
    }
  }

  lemma WholeCoord(size: nat, peakMap: nat, height: nat)
    requires WholeSize(size) && CoordOf(size + 1) == Coord(peakMap, height)
    ensures height == 0 && peakMap == LeafCount(size)
  {
    LeafCountNext(size);
  }

  lemma PushTest(n: nat, j: nat)
    requires j <= TrailingOnes(n)
    ensures Pow2(j) > 0 && (TestBit(n, Pow2(j)) <==> j < TrailingOnes(n))
    ensures Pow2(j + 1) == 2 * Pow2(j)
  {
    TestBitIsBit(n, j);
    BitOfRun(n, j);
  }

  function Above(v: seq<Pos>, p: Pos): seq<Pos> {
    if v == [] then [] else (if v[0] > p then [v[0]] else []) + Above(v[1..], p)
  }

  function Below(v: seq<Pos>, p: Pos): seq<Pos> {
    if v == [] then [] else (if v[0] < p then [v[0]] else []) + Below(v[1..], p)
  }

  lemma {:induction false} Split(v: seq<Pos>, k: nat)
    requires Ascends(v) && k < |v|
    ensures Below(v, v[k]) == v[..k] && Above(v, v[k]) == v[k + 1..]
    decreases |v|
  {
    if k == 0 {
      AllAbove(v[1..], v[0]);
    } else {
      Split(v[1..], k - 1);
      assert v[0] < v[k];
    }
  }

  lemma {:induction false} AllAbove(v: seq<Pos>, p: Pos)
    requires forall i :: 0 <= i < |v| ==> v[i] > p
    ensures Above(v, p) == v && Below(v, p) == []
    decreases |v|
  {
    if v != [] { AllAbove(v[1..], p); }
  }

  lemma Parts(v: seq<Pos>, k: nat, left: seq<Pos>, right: seq<Pos>)
    requires k < |v| && left == v[..k] && right == v[k + 1..]
    ensures (forall p :: p in left ==> p in v) && forall p :: p in right ==> p in v
  {
    assert v == left + [v[k]] + right;
  }

  lemma SplitHashes(c: Contents, v: seq<Pos>, k: nat, left: seq<Pos>, right: seq<Pos>) returns (hashes: seq<Bytes>)
    requires k < |v| && left == v[..k] && right == v[k + 1..]
    requires forall p :: p in v ==> p <= |c.hashes|
    requires (forall p :: p in left ==> p in v) && forall p :: p in right ==> p in v
    ensures hashes == HashesAt(c, v) && |hashes| == |v|
    ensures HashesAt(c, left) == hashes[..k] && HashesAt(c, right) == hashes[k + 1..]
  {
    hashes := HashesAt(c, v);
  }

  lemma BaggedPath(hasher: Hasher, hashes: seq<Bytes>, k: nat, size: nat, path: seq<Bytes>)
    requires k < |hashes|
    requires var rest := hashes[k + 1..];
             path == Reverse(hashes[..k] + if rest == [] then [] else [Bag(hasher, rest, size)])
    ensures path == PeakPath(hasher, hashes, k, size)
  {
    hide Bag;
  }

  lemma NotCompacted(leaves: set<Pos>, p: Pos)
    requires IsLeaf(p) && p !in leaves
    ensures !Compacted(leaves, p)
  {
    UnderSelf(p);
    BranchKept(leaves, p, p);
  }

  lemma BranchHash(leaves: set<Pos>, c: Contents, x: Pos, p: Pos)
    requires IsLeaf(x) && x !in leaves && Under(x, p)
    ensures Under(x, Parent(p))
    ensures Sibling(p) <= |c.hashes| ==> HashAt(leaves, c, Sibling(p)) == Some(c.hashes[Sibling(p) - 1])
  {
    hide IsLeaf, Under, Parent, Sibling, Compacted;
    BranchKept(leaves, x, p);
  }

  /** Beside the way up from a leaf that is not pruned nothing is compacted. */
  lemma BranchKept(leaves: set<Pos>, x: Pos, p: Pos)
    requires IsLeaf(x) && x !in leaves && Under(x, p)
    ensures !Compacted(leaves, p) && !Compacted(leaves, Sibling(p))
    ensures Under(x, Parent(p))
  {
    hide IsLeaf, Under, Parent, Sibling;
    Family(p);
    UnderParent(x, p);
  }
}
