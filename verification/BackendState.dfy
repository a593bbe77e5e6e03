/** What the files of a backend hold, as a function of everything appended and of the pruned leaves. */
module BackendState {
  import opened Mmr
  import opened Navigation
  import opened Pruning
  import opened Ranks
  import opened CompactFiles
  import opened Chunks
  import opened Options

  type Bytes = seq<byte>

  /** Everything in the range, pruned or not: a hash for each position, data for each leaf. */
  datatype Contents = Contents(hashes: seq<Bytes>, data: seq<Bytes>)

  ghost predicate Whole(c: Contents) {
    WholeSize(|c.hashes|) && |c.data| == LeafCount(|c.hashes|)
  }

  ghost predicate UpTo(leaves: set<Pos>, size: nat) {
    forall x :: x in leaves ==> x <= size
  }

  /** The two files hold the entries of `c` that are not compacted. */
  ghost predicate FilesStore(leaves: set<Pos>, c: Contents, hashFile: seq<Bytes>, dataFile: seq<Bytes>) {
    && Whole(c)
    && hashFile == Stored(Nodes, leaves, |c.hashes|, c.hashes)
    && dataFile == Stored(Leaves, leaves, |c.hashes|, c.data)
  }

  /** And nothing past their end is pruned. */
  ghost predicate FilesHold(leaves: set<Pos>, c: Contents, hashFile: seq<Bytes>, dataFile: seq<Bytes>) {
    FilesStore(leaves, c, hashFile, dataFile) && UpTo(leaves, |c.hashes|)
  }

  /** A size that includes everything pruned is past everything compacted. */
  lemma PastCompacted(leaves: set<Pos>, size: nat, q: Pos)
    requires WholeSize(size) && UpTo(leaves, size) && q >= size
    ensures !Compacted(leaves, q)
  {
    if Compacted(leaves, q) {
      Family(q);
      FullBound(leaves, Parent(q));
      WholeSizeHoldsParents(size, Parent(q));
    }
  }

  lemma FullInside(leaves: set<Pos>, size: nat, p: Pos)
    requires WholeSize(size) && UpTo(leaves, size) && Full(leaves, p)
    ensures p <= size
  {
    FullBound(leaves, p);
    WholeSizeHoldsParents(size, p);
  }

  ghost function Cut(c: Contents, size: nat): Contents
    requires size <= |c.hashes| && LeafCount(size) <= |c.data|
  {
    Contents(c.hashes[..size], c.data[..LeafCount(size)])
  }

  lemma CutFits(c: Contents, size: nat)
    requires Whole(c) && size <= |c.hashes|
    ensures LeafCount(size) <= |c.data|
  {
    CountMonotone(Leaves, size, |c.hashes|);
  }

  /** Cutting both files at the ranks of a size gives the files of the range cut at that size. */
  lemma RewoundFiles(leaves: set<Pos>, c: Contents, hashFile: seq<Bytes>, dataFile: seq<Bytes>, size: nat)
    requires FilesHold(leaves, c, hashFile, dataFile)
    requires size <= |c.hashes| && WholeSize(size) && UpTo(leaves, size)
    ensures LeafCount(size) <= |c.data|
    ensures KeptTo(Nodes, leaves, size) <= |hashFile| && KeptTo(Leaves, leaves, size) <= |dataFile|
    ensures FilesHold(leaves, Cut(c, size), hashFile[..KeptTo(Nodes, leaves, size)],
            dataFile[..KeptTo(Leaves, leaves, size)])
  {
    hide KeptTo, Stored, LeafCount, WholeSize;
    CutFits(c, size);
    StoredPrefix(Nodes, leaves, size, |c.hashes|, c.hashes);
    StoredPrefix(Leaves, leaves, size, |c.hashes|, c.data);
    StoredAgrees(Nodes, leaves, size, c.hashes, c.hashes[..size]);
    StoredAgrees(Leaves, leaves, size, c.data, c.data[..LeafCount(size)]);
  }

  ghost function Extend(c: Contents, hashes: seq<Bytes>, element: Bytes): Contents {
    Contents(c.hashes + hashes, c.data + [element])
  }

  /** Appended entries lie past everything compacted, so they go to the end of both files. */
  lemma AppendedFiles(
      leaves: set<Pos>, c: Contents, hashFile: seq<Bytes>, dataFile: seq<Bytes>, hashes: seq<Bytes>, element: Bytes)
    requires FilesHold(leaves, c, hashFile, dataFile)
    requires Whole(Extend(c, hashes, element))
    ensures FilesHold(leaves, Extend(c, hashes, element), hashFile + hashes, dataFile + [element])
  {
    hide Stored, LeafCount, WholeSize, Compacted;
    var d := Extend(c, hashes, element);
    var m, n := |c.hashes|, |d.hashes|;
    forall q: Pos | m < q <= n ensures !Compacted(leaves, q) {
      PastCompacted(leaves, m, q);
    }
    StoredExtends(Nodes, leaves, m, n, d.hashes);
    StoredAgrees(Nodes, leaves, m, d.hashes, c.hashes);
    assert d.hashes[m..n] == hashes;
    StoredExtends(Leaves, leaves, m, n, d.data);
    StoredAgrees(Leaves, leaves, m, d.data, c.data);
    assert d.data[|c.data|..|d.data|] == [element];
  }

  /** Dropping the entries of the newly compacted positions from both files keeps them holding the same contents. */
  lemma CompactedFiles(
      before: set<Pos>, after: set<Pos>, gone: set<Pos>, c: Contents, hashFile: seq<Bytes>, dataFile: seq<Bytes>)
    requires FilesStore(before, c, hashFile, dataFile)
    requires before <= after && NewlyCompacted(before, after, gone)
    ensures FilesStore(after, c, Without(hashFile, DropIndices(Nodes, before, gone)),
                       Without(dataFile, DropIndices(Leaves, before, gone)))
  {
    hide Stored, LeafCount, WholeSize, NewlyCompacted, Without, DropIndices;
    DropIsCompaction(Nodes, before, after, gone, |c.hashes|, c.hashes);
    DropIsCompaction(Leaves, before, after, gone, |c.hashes|, c.data);
  }

  /** What a reader may ask of the hash file: the hash of any position that is there and not compacted. */
  ghost function HashAt(leaves: set<Pos>, c: Contents, p: Pos): Option<Bytes> {
    if p <= |c.hashes| && !Compacted(leaves, p) then Some(c.hashes[p - 1]) else None
  }

  ghost function DataAt(leaves: set<Pos>, c: Contents, p: Pos): Option<Bytes>
    requires Whole(c)
  {
    if p <= |c.hashes| && IsLeaf(p) && !Compacted(leaves, p) then
      LeafCountWithin(c, p);
      Some(c.data[LeafCount(p) - 1])
    else None
  }

  lemma LeafCountWithin(c: Contents, p: Pos)
    requires Whole(c) && p <= |c.hashes|
    ensures 0 < LeafCount(p) <= |c.data|
  {
    CountMonotone(Leaves, p, |c.hashes|);
  }

  /** Reading the hash file at a position's rank finds its hash, and nothing past the end. */
  lemma HashFileAt(leaves: set<Pos>, c: Contents, hashFile: seq<Bytes>, dataFile: seq<Bytes>, p: Pos)
    requires FilesStore(leaves, c, hashFile, dataFile) && !Compacted(leaves, p)
    ensures KeptTo(Nodes, leaves, p) > 0
    ensures p <= |c.hashes| <==> KeptTo(Nodes, leaves, p) <= |hashFile|
    ensures p <= |c.hashes| ==> hashFile[KeptTo(Nodes, leaves, p) - 1] == c.hashes[p - 1]
  {
    hide Compacted, LeafCount, WholeSize, Height, KeptTo, Stored;
    KeptStep(Nodes, leaves, p);
    StoredLength(Nodes, leaves, |c.hashes|, c.hashes);
    if p <= |c.hashes| {
      StoredAt(Nodes, leaves, |c.hashes|, c.hashes, p);
    } else {
      KeptToMonotone(Nodes, leaves, |c.hashes|, p);
    }
  }

  lemma DataFileAt(leaves: set<Pos>, c: Contents, hashFile: seq<Bytes>, dataFile: seq<Bytes>, p: Pos)
    requires FilesStore(leaves, c, hashFile, dataFile) && !Compacted(leaves, p) && IsLeaf(p)
    ensures KeptTo(Leaves, leaves, p) > 0
    ensures p <= |c.hashes| <==> KeptTo(Leaves, leaves, p) <= |dataFile|
    ensures p <= |c.hashes| ==>
              0 < LeafCount(p) <= |c.data| && dataFile[KeptTo(Leaves, leaves, p) - 1] == c.data[LeafCount(p) - 1]
  {
    hide Compacted, LeafCount, WholeSize, Height, KeptTo, Stored;
    KeptStep(Leaves, leaves, p);
    StoredLength(Leaves, leaves, |c.hashes|, c.data);
    if p <= |c.hashes| {
      StoredAt(Leaves, leaves, |c.hashes|, c.data, p);
    } else {
      KeptToMonotone(Leaves, leaves, |c.hashes|, p);
    }
  }
}
