/** The persistent backend of a prunable range: two files, a leaf set and a prune list. */
module Backends {
  import opened Options
  import opened Mmr
  import opened Bitmaps
  import opened Navigation
  import opened Pruning
  import opened Ranks
  import opened Chunks
  import opened Collections
  import opened SizeIndex
  import opened FixedFiles
  import opened VariableFiles
  import opened CompactFiles
  import opened PruneLists
  import opened LeafSets
  import opened RemovalClimb
  import opened BackendState

  const HASH_LEN: nat := 32

  class PMMRBackend {
    const prunable: bool
    const hashFile: FixedFile
    const dataFile: VariableFile
    const leafSet: LeafSet
    const pruneList: PruneList
    /** Everything in the range, pruned or not, as a reader may see it. */
    ghost var now: Contents
    /** The same as of the last sync. */
    ghost var saved: Contents

    ghost predicate Valid()
      reads this, hashFile, dataFile, dataFile.sizeFile, pruneList
    {
      && hashFile.Valid() && hashFile.elmtSize == HASH_LEN
      && dataFile.Valid() && dataFile.sizeFile != hashFile
      && pruneList.Valid() && pruneList.CachesFresh()
      && FilesHold(pruneList.leaves, now, hashFile.working, dataFile.working)
      && FilesHold(pruneList.leaves, saved, hashFile.committed, dataFile.committed)
    }

    /** Enough to read: leaves past the end of the range may have been pruned. */
    ghost predicate Readable()
      reads this, hashFile, dataFile, dataFile.sizeFile, pruneList
    {
      && hashFile.Valid() && hashFile.elmtSize == HASH_LEN
      && dataFile.Valid() && dataFile.sizeFile != hashFile
      && pruneList.Valid() && pruneList.CachesFresh()
      && FilesStore(pruneList.leaves, now, hashFile.working, dataFile.working)
      && FilesStore(pruneList.leaves, saved, hashFile.committed, dataFile.committed)
    }

    lemma CanRead()
      ensures Valid() <==> Readable() && UpTo(pruneList.leaves, |now.hashes|) && UpTo(pruneList.leaves, |saved.hashes|)
    {
      hide FilesStore, UpTo, FixedFile.Valid, VariableFile.Valid, PruneList.Valid, PruneList.CachesFresh;
    }

    ghost predicate Synced()
      reads this, hashFile, dataFile, dataFile.sizeFile
    {
      hashFile.Synced() && dataFile.Synced() && now == saved
    }

    constructor Empty(canPrune: bool, elementReader: seq<byte> -> nat)
      requires elementReader([]) == 0
      ensures Valid() && Synced()
      ensures now == Contents([], []) && leafSet.bitmap == leafSet.bitmapBak == leafSet.file == {}
              && pruneList.leaves == {}
      ensures prunable == canPrune && dataFile.reader == elementReader
      ensures fresh(hashFile) && fresh(dataFile) && fresh(dataFile.sizeFile) && fresh(leafSet) && fresh(pruneList)
    {
      prunable := canPrune;
      hashFile := new FixedFile.Empty(HASH_LEN);
      dataFile := new VariableFile.Empty(elementReader);
      leafSet := new LeafSet.Open({});
      NoRoots();
      pruneList := new PruneList.Open({}, {});
      now, saved := Contents([], []), Contents([], []);
      new;
      EmptyFiles();
    }

    /** Opens the files and bitmaps of a range from disk. */
    constructor Open(
        canPrune: bool, elementReader: seq<byte> -> nat, hashBytes: seq<byte>, dataBytes: seq<byte>,
        sizeBytes: seq<byte>,
        unspent: set<Pos>, roots: set<Pos>,
        ghost pruned: set<Pos>, ghost contents: Contents, ghost hashes: seq<Bytes>, ghost data: seq<Bytes>)
      requires hashBytes == Concat(hashes) && AllOfSize(hashes, HASH_LEN)
      requires dataBytes == Concat(data) && DelimitsAll(elementReader, data) && Fits(data)
      requires SumOfSizes(sizeBytes) != |dataBytes| || sizeBytes == Concat(IndexOf(data))
      requires LeavesOnly(pruned) && HoldsRoots(roots, pruned) && FilesHold(pruned, contents, hashes, data)
      ensures Valid() && Synced() && now == saved == contents
      ensures leafSet.bitmap == leafSet.bitmapBak == leafSet.file == unspent && pruneList.leaves == pruned
      ensures prunable == canPrune && dataFile.reader == elementReader
      ensures fresh(hashFile) && fresh(dataFile) && fresh(dataFile.sizeFile) && fresh(leafSet) && fresh(pruneList)
    {
      hide FixedFile.Valid, VariableFile.Valid, PruneList.Valid, PruneList.CachesFresh, FilesHold, Fits, DelimitsAll;
      hide IndexOf;
      prunable := canPrune;
      hashFile := new FixedFile.Open(HASH_LEN, hashBytes, hashes);
      dataFile := new VariableFile.Open(elementReader, dataBytes, sizeBytes, data);
      leafSet := new LeafSet.Open(unspent);
      pruneList := new PruneList.Open(roots, pruned);
      now, saved := contents, contents;
    }

    /** The hash at a position, unless it is compacted or past the end. */
    method GetFromFile(position: Pos) returns (hash: Option<Bytes>)
      requires Readable()
      ensures hash == HashAt(pruneList.leaves, now, position)
    {
      hide FixedFile.Valid, VariableFile.Valid, FilesStore, Compacted, Root, Full, KeptTo, PrefixSums, LeavesOnly;
      hide Lookup;
      CompactedIsPrunedNotRoot(pruneList.leaves, position);
      if pruneList.IsPruned(position) && !pruneList.IsPrunedRoot(position) {
        return None;
      }
      LookupIsRank(Nodes, pruneList.leaves, pruneList.bitmap, pruneList.shiftCache, position);
      HashFileAt(pruneList.leaves, now, hashFile.working, dataFile.working, position);
      var shift := pruneList.GetShift(position);
      var bytes := hashFile.Read(position - shift - 1);
      if position <= |now.hashes| { hashFile.ElementSize(position - shift - 1); }
      hash := if bytes == [] then None else Some(bytes);
    }

    /** The data of a leaf, unless it is compacted or past the end. */
    method GetDataFromFile(position: Pos) returns (data: Option<Bytes>)
      requires Readable()
      ensures Whole(now) && data == DataAt(pruneList.leaves, now, position)
    {
      hide FixedFile.Valid, VariableFile.Valid, Compacted, Root, Full, KeptTo, IsLeaf, Stored, LeafCount;
      var leaf := LeafTest(position);
      if !leaf {
        return None;
      }
      CompactedIsPrunedNotRoot(pruneList.leaves, position);
      if pruneList.IsPruned(position) && !pruneList.IsPrunedRoot(position) {
        return None;
      }
      LookupIsRank(Leaves, pruneList.leaves, pruneList.bitmap, pruneList.leafShiftCache, position);
      DataFileAt(pruneList.leaves, now, hashFile.working, dataFile.working, position);
      var flatfilePos := NLeaves(position);
      var shift := pruneList.GetLeafShift(position);
      var bytes := dataFile.Read(flatfilePos - shift - 1);
      if position <= |now.hashes| { dataFile.ElementNotEmpty(flatfilePos - shift - 1); }
      data := if bytes == [] then None else Some(bytes);
    }

    /** As `GetFromFile`, but a leaf that was removed is not there. */
    method GetHash(pos: Pos) returns (hash: Option<Bytes>)
      requires Readable()
      ensures hash == if prunable && IsLeaf(pos) && pos !in leafSet.bitmap then None
                      else HashAt(pruneList.leaves, now, pos)
    {
      var leaf := LeafTest(pos);
      if prunable && leaf && pos !in leafSet.bitmap {
        return None;
      }
      hash := GetFromFile(pos);
    }

    method GetData(pos: Pos) returns (data: Option<Bytes>)
      requires Readable()
      ensures Whole(now)
      ensures data == if prunable && pos !in leafSet.bitmap then None else DataAt(pruneList.leaves, now, pos)
    {
      hide IsLeaf, Compacted, LeafCount, WholeSize;
      var leaf := LeafTest(pos);
      if !leaf {
        return None;
      }
      if prunable && pos !in leafSet.bitmap {
        return None;
      }
      data := GetDataFromFile(pos);
    }

    /** Hash file length plus total shift is the size of the range. */
    method UnprunedSize() returns (size: nat)
      requires Valid()
      ensures size == |saved.hashes|
    {
      hide FixedFile.Valid, VariableFile.Valid, Root, Full, KeptTo, GoneTo, WholeSize, LeafCount, Stored;
      RootsInside(pruneList.bitmap, pruneList.leaves, |saved.hashes|);
      TotalLookup(Nodes, pruneList.leaves, pruneList.bitmap, pruneList.shiftCache, |saved.hashes|);
      CountSplits(Nodes, pruneList.leaves, |saved.hashes|);
      StoredLength(Nodes, pruneList.leaves, |saved.hashes|, saved.hashes);
      hashFile.DiskSize();
      size := hashFile.SizeInElmts() + pruneList.GetTotalShift();
    }

    /**
     Appends a leaf and the parents it completes. The position put in the leaf set is computed
     from the data file and the prune list alone, and is the position of the new leaf.
     */
    method Append(element: Bytes, hashes: seq<Bytes>) returns (ok: bool)
      requires Valid()
      requires Whole(Extend(now, hashes, element)) && AllOfSize(hashes, HASH_LEN)
      requires Delimits(dataFile.reader, element) && |element| < MAX_SIZE
      requires |Concat(dataFile.working)| + |element| < MAX_OFFSET
      modifies this`now, leafSet`bitmap
      modifies hashFile`buffer, hashFile`working
      modifies dataFile`buffer, dataFile`working, dataFile.sizeFile`buffer, dataFile.sizeFile`working
      ensures ok && Valid()
      ensures now == Extend(old(now), hashes, element)
      ensures dataFile.working == old(dataFile.working) + [element]
      ensures leafSet.bitmap == old(leafSet.bitmap) + if prunable then {|old(now).hashes| + 1} else {}
    {
      hide FixedFile.Valid, VariableFile.Valid, HoldsRoots, HoldsFull, LeavesOnly, PrefixSums, Stored, Whole;
      hide LeafCount, Delimits;
      ghost var leaves, before := pruneList.leaves, now;
      AppendedFiles(leaves, now, hashFile.working, dataFile.working, hashes, element);
      NewLeaf(pruneList.bitmap, pruneList.leafShiftCache, leaves, now, hashFile.working, dataFile.working, hashes,
        element);
      ok := dataFile.Append(element);
      var size := dataFile.SizeUnsyncInElmts();
      ghost var start := hashFile.working;
      for i := 0 to |hashes|
        modifies hashFile`buffer, hashFile`working
        invariant hashFile.Valid() && hashFile.working == start + hashes[..i]
      {
        hashFile.Append(hashes[i]);
        assert start + hashes[..i + 1] == start + hashes[..i] + [hashes[i]];
      }
      assert hashes[..|hashes|] == hashes;
      now := Extend(now, hashes, element);
      if prunable {
        var pos := InsertionToPmmrIndex(size + pruneList.GetTotalLeafShift());
        leafSet.Add(pos);
      }
    }

    /** Cuts the range back to a whole size that still includes everything pruned. */
    method Rewind(position: nat, rewindRmPos: set<Pos>)
      requires Valid()
      requires hashFile.buffer == [] && dataFile.buffer == []
      requires now.hashes <= saved.hashes && now.data <= saved.data
      requires position <= |now.hashes| && WholeSize(position) && UpTo(pruneList.leaves, position)
      modifies this`now, leafSet`bitmap
      modifies hashFile`bufferStartPos, hashFile`bufferStartPosBak, hashFile`working
      modifies dataFile`bufferStartPos, dataFile`bufferStartPosBak, dataFile`working
      modifies dataFile.sizeFile`bufferStartPos, dataFile.sizeFile`bufferStartPosBak, dataFile.sizeFile`working
      ensures Valid() && hashFile.buffer == [] && dataFile.buffer == []
      ensures LeafCount(position) <= |saved.data| && now == Cut(saved, position)
      ensures leafSet.bitmap ==
              if prunable then Rewound(old(leafSet.bitmap), position, rewindRmPos) else old(leafSet.bitmap)
    {
      hide FixedFile.Valid, VariableFile.Valid, HoldsRoots, HoldsFull, LeavesOnly, PrefixSums, FilesHold, LeafCount;
      hide WholeSize, KeptTo, Compacted, Rewound;
      if prunable {
        leafSet.Rewind(position, rewindRmPos);
      }
      ghost var leaves := pruneList.leaves;
      if position > 0 { PastCompacted(leaves, position, position); }
      LookupIsRank(Nodes, leaves, pruneList.bitmap, pruneList.shiftCache, position);
      LookupIsRank(Leaves, leaves, pruneList.bitmap, pruneList.leafShiftCache, position);
      RewoundFiles(leaves, saved, hashFile.committed, dataFile.committed, position);

      var shift := pruneList.GetShift(position);
      hashFile.Rewind(position - shift);

      var flatfilePos := NLeaves(position);
      var leafShift := pruneList.GetLeafShift(position);
      dataFile.Rewind(flatfilePos - leafShift);
      now := Cut(saved, position);
    }

    method Remove(pos: Pos)
      requires prunable
      modifies leafSet`bitmap
      ensures leafSet.bitmap == old(leafSet.bitmap) - {pos}
    {
      leafSet.Remove(pos);
    }

    method Sync() returns (ok: bool)
      requires Valid()
      modifies this`saved, leafSet`bitmapBak, leafSet`file
      modifies hashFile`disk, hashFile`buffer, hashFile`bufferStartPos, hashFile`bufferStartPosBak, hashFile`committed
      modifies dataFile`disk, dataFile`buffer, dataFile`bufferStartPos, dataFile`bufferStartPosBak, dataFile`committed
      modifies dataFile.sizeFile`disk, dataFile.sizeFile`buffer, dataFile.sizeFile`bufferStartPos
      modifies dataFile.sizeFile`bufferStartPosBak, dataFile.sizeFile`committed
      ensures ok && Valid() && Synced()
      ensures saved == now
      ensures prunable ==> leafSet.file == leafSet.bitmapBak == leafSet.bitmap
    {
      hide FixedFile.Valid, VariableFile.Valid, PruneList.Valid, PrefixSums, FilesHold;
      hashFile.Flush();
      ok := dataFile.Flush();
      saved := now;
      if prunable {
        leafSet.Flush();
      }
    }

    method Discard()
      requires Valid()
      modifies this`now, leafSet`bitmap
      modifies hashFile`buffer, hashFile`bufferStartPos, hashFile`bufferStartPosBak, hashFile`working
      modifies dataFile`buffer, dataFile`bufferStartPos, dataFile`bufferStartPosBak, dataFile`working
      modifies dataFile.sizeFile`buffer, dataFile.sizeFile`bufferStartPos, dataFile.sizeFile`bufferStartPosBak
      modifies dataFile.sizeFile`working
      ensures Valid() && Synced()
      ensures now == saved && leafSet.bitmap == leafSet.bitmapBak
    {
      hide FixedFile.Valid, VariableFile.Valid, PruneList.Valid, PrefixSums, FilesHold;
      hashFile.Discard();
      dataFile.Discard();
      leafSet.Discard();
      now := saved;
    }

    /** Indices in the hash file of positions that are in it. */
    method HashIndices(gone: set<Pos>) returns (indices: seq<nat>)
      requires Readable()
      requires forall p :: p in gone ==> !Compacted(pruneList.leaves, p)
      ensures Increasing(indices) && ToSet(indices) == DropIndices(Nodes, pruneList.leaves, gone)
    {
      hide FixedFile.Valid, VariableFile.Valid, HoldsRoots, HoldsFull, LeavesOnly, PrefixSums, FilesStore;
      hide KeptTo, Compacted, Increasing, DropIndices;
      var v := Iterate(gone);
      AscendingLists(gone);
      indices := [];
      for k := 0 to |v|
        invariant |indices| == k
        invariant forall j :: 0 <= j < k ==> indices[j] + 1 == KeptTo(Nodes, pruneList.leaves, v[j])
      {
        var pos := v[k];
        LookupIsRank(Nodes, pruneList.leaves, pruneList.bitmap, pruneList.shiftCache, pos);
        KeptStep(Nodes, pruneList.leaves, pos);
        var shift := pruneList.GetShift(pos);
        indices := indices + [pos - shift - 1];
      }
      IndicesDrop(Nodes, pruneList.leaves, gone, v, indices);
    }

    /** Indices in the data file of the leaves among positions that are in it. */
    method DataIndices(gone: set<Pos>) returns (indices: seq<nat>)
      requires Readable()
      requires forall p :: p in gone ==> !Compacted(pruneList.leaves, p)
      ensures Increasing(indices) && ToSet(indices) == DropIndices(Leaves, pruneList.leaves, gone)
    {
      hide FixedFile.Valid, VariableFile.Valid, HoldsRoots, HoldsFull, LeavesOnly, PrefixSums, FilesStore;
      hide KeptTo, Compacted, Increasing, DropIndices, IsLeaf, LeafCount;
      var v := LeavesAmong(gone);
      indices := [];
      for k := 0 to |v|
        invariant |indices| == k
        invariant forall j :: 0 <= j < k ==> indices[j] + 1 == KeptTo(Leaves, pruneList.leaves, v[j])
      {
        var pos := v[k];
        assert pos in v;
        LookupIsRank(Leaves, pruneList.leaves, pruneList.bitmap, pruneList.leafShiftCache, pos);
        KeptStep(Leaves, pruneList.leaves, pos);
        var flatPos := NLeaves(pos);
        var shift := pruneList.GetLeafShift(pos);
        indices := indices + [flatPos - shift - 1];
      }
      IndicesDrop(Leaves, pruneList.leaves, gone, v, indices);
    }

    /**
     Prunes the leaves up to the cutoff that no rewind to it would put back, rewrites both files
     without what is compacted, and leaves everything that is not compacted readable as before. With a
     cutoff past the end of the range, leaves that are still to come may be pruned: then the range can
     still be read, but no longer be appended to.
     */
    method CheckCompact(cutoff: nat, rewindRmPos: set<Pos>)
      requires prunable && Valid() && Synced()
      modifies leafSet`bitmapBak, leafSet`file, pruneList
      modifies hashFile`disk, hashFile`bufferStartPos, hashFile`committed, hashFile`working
      modifies dataFile`disk, dataFile`bufferStartPos, dataFile`committed, dataFile`working
      modifies dataFile.sizeFile`disk, dataFile.sizeFile`bufferStartPos, dataFile.sizeFile`committed
      modifies dataFile.sizeFile`working
      ensures Readable() && Synced()
      ensures Valid() <==>
                forall x: Pos :: |now.hashes| < x <= cutoff && IsLeaf(x) ==>
                  x in Rewound(leafSet.bitmap, cutoff, rewindRmPos)
      ensures leafSet.file == leafSet.bitmapBak == leafSet.bitmap
      ensures PrunedAt(old(pruneList.leaves), pruneList.leaves, leafSet.bitmap, cutoff, rewindRmPos)
      ensures forall p: Pos :: !Compacted(pruneList.leaves, p) ==>
                && HashAt(pruneList.leaves, now, p) == old(HashAt(pruneList.leaves, now, p))
                && Whole(now)
                && DataAt(pruneList.leaves, now, p) == old(DataAt(pruneList.leaves, now, p))
    {
      hide FixedFile.Valid, VariableFile.Valid, PrefixSums, FilesStore, UpTo, Whole, WholeSize, LeafCount;
      hide KeptTo, Compacted, Increasing, DropIndices, NewlyCompacted, Rewound, IsLeaf, HoldsRoots, LeavesOnly, Full;
      ghost var before := pruneList.leaves;
      var leavesRemoved := leafSet.RemovedPreCutoff(cutoff, rewindRmPos, pruneList);
      ghost var after := before + leavesRemoved;
      assert forall x :: x in leavesRemoved ==> IsLeaf(x) && x !in before by {
        forall x | x in leavesRemoved ensures x !in before { FullLeaf(before, x); }
      }
      var gone := PosToRm(pruneList, leavesRemoved);
      GoneWereThere(before, after, gone);
      var hashIndices := HashIndices(gone);
      var dataIndices := DataIndices(gone);
      StoredIsWhole(before, now, hashFile.working, dataFile.working);
      CompactedFiles(before, after, gone, now, hashFile.working, dataFile.working);
      hashFile.SavePrune(hashIndices);
      dataFile.SavePrune(dataIndices);

      PruneAll(leavesRemoved);
      pruneList.Flush();
      leafSet.Flush();
      StillReadable(before, after, now);
      forall x: Pos ensures x in after <==>
          x in before || (x <= cutoff && IsLeaf(x) && x !in Rewound(leafSet.bitmap, cutoff, rewindRmPos)) {
        if IsLeaf(x) { FullLeaf(before, x); }
      }
      PrunedInside(before, after, leafSet.bitmap, cutoff, rewindRmPos, |now.hashes|);
      CanRead();
    }

    method PruneAll(leavesRemoved: set<Pos>)
      requires pruneList.Valid() && forall x :: x in leavesRemoved ==> IsLeaf(x)
      modifies pruneList`bitmap, pruneList`prunedCache, pruneList`leaves
      ensures pruneList.Valid()
      ensures pruneList.leaves == old(pruneList.leaves) + leavesRemoved
    {
      hide LeavesOnly, HoldsRoots, HoldsFull, IsLeaf, Ascending;
      var v := Iterate(leavesRemoved);
      AscendingLists(leavesRemoved);
      for i := 0 to |v|
        modifies pruneList`bitmap, pruneList`prunedCache, pruneList`leaves
        invariant pruneList.Valid()
        invariant pruneList.leaves == old(pruneList.leaves) + set x | x in v[..i]
      {
        assert v[i] in leavesRemoved;
        pruneList.Add(v[i]);
        assert v[..i + 1] == v[..i] + [v[i]];
      }
      assert v[..|v|] == v;
    }
  }

  method LeavesAmong(positions: set<Pos>) returns (v: seq<Pos>)
    ensures Ascends(v) && forall p: Pos :: p in v <==> p in positions && IsLeaf(p)
  {
    hide IsLeaf;
    var all := Iterate(positions);
    AscendingLists(positions);
    v := [];
    for i := 0 to |all|
      invariant Ascends(v)
      invariant forall p: Pos :: p in v <==> p in all[..i] && IsLeaf(p)
    {
      assert all[..i + 1] == all[..i] + [all[i]];
      var leaf := LeafTest(all[i]);
      if leaf {
        assert forall j :: 0 <= j < |v| ==> v[j] in v;
        v := v + [all[i]];
      }
    }
    assert all[..|all|] == all;
  }

  lemma IndicesDrop(u: Entries, leaves: set<Pos>, gone: set<Pos>, v: seq<Pos>, indices: seq<nat>)
    requires forall p :: p in gone ==> !Compacted(leaves, p)
    requires Ascends(v) && forall p: Pos :: p in v <==> p in gone && Counted(u, p)
    requires |indices| == |v| && forall j :: 0 <= j < |v| ==> indices[j] + 1 == KeptTo(u, leaves, v[j])
    ensures Increasing(indices) && ToSet(indices) == DropIndices(u, leaves, gone)
  {
    hide KeptTo, Compacted, Counted;
    forall i, j | 0 <= i < j < |indices| ensures indices[i] < indices[j] {
      assert v[j] in v;
      KeptToMonotone(u, leaves, v[i], v[j]);
    }
    forall k | k in indices ensures k in DropIndices(u, leaves, gone) {
      var j :| 0 <= j < |indices| && indices[j] == k;
      assert v[j] in v;
    }
    forall k | k in DropIndices(u, leaves, gone) ensures k in indices {
      var p :| p in gone && Kept(u, leaves, p) && KeptTo(u, leaves, p) > 0 && KeptTo(u, leaves, p) - 1 == k;
      assert p in v;
      var j :| 0 <= j < |v| && v[j] == p;
      assert indices[j] == k;
    }
  }

  lemma GoneWereThere(before: set<Pos>, after: set<Pos>, gone: set<Pos>)
    requires NewlyCompacted(before, after, gone)
    ensures forall p :: p in gone ==> !Compacted(before, p)
  {
  }

  lemma StoredIsWhole(leaves: set<Pos>, c: Contents, hashFile: seq<Bytes>, dataFile: seq<Bytes>)
    requires FilesStore(leaves, c, hashFile, dataFile)
    ensures Whole(c)
  {
  }

  /** Nothing past the size is pruned exactly if every leaf from there to the cutoff would be put back. */
  lemma PrunedInside(before: set<Pos>, after: set<Pos>, bitmap: set<Pos>, cutoff: nat, rewindRmPos: set<Pos>, size: nat)
    requires PrunedAt(before, after, bitmap, cutoff, rewindRmPos) && UpTo(before, size)
    ensures UpTo(after, size) <==>
              forall x: Pos :: size < x <= cutoff && IsLeaf(x) ==> x in Rewound(bitmap, cutoff, rewindRmPos)
  {
    hide IsLeaf, Rewound;
    if UpTo(after, size) {
      forall x: Pos | size < x <= cutoff && IsLeaf(x) ensures x in Rewound(bitmap, cutoff, rewindRmPos) {
        assert x !in after;
      }
    }
  }

  lemma StillReadable(before: set<Pos>, after: set<Pos>, c: Contents)
    requires before <= after && Whole(c)
    ensures forall p: Pos :: !Compacted(after, p) ==>
              HashAt(after, c, p) == HashAt(before, c, p) && DataAt(after, c, p) == DataAt(before, c, p)
  {
    hide Compacted, Whole, LeafCount;
    forall p: Pos | !Compacted(after, p) ensures !Compacted(before, p) {
      CompactedMonotone(before, after, p);
    }
  }

  /** With nothing pruned past the size, every root is inside. */
  lemma RootsInside(bitmap: set<Pos>, leaves: set<Pos>, size: nat)
    requires HoldsRoots(bitmap, leaves) && WholeSize(size) && UpTo(leaves, size)
    ensures forall r :: r in bitmap ==> r <= size
  {
    hide Full;
    forall r | r in bitmap ensures r <= size {
      FullInside(leaves, size, r);
    }
  }

  /** The new data file length plus the total leaf shift is the number of leaves, the new one included. */
  lemma NewLeaf(bitmap: set<Pos>, cache: seq<nat>, leaves: set<Pos>, c: Contents,
                hashFile: seq<Bytes>, dataFile: seq<Bytes>, hashes: seq<Bytes>, element: Bytes)
    requires FilesHold(leaves, c, hashFile, dataFile) && Whole(Extend(c, hashes, element))
    requires HoldsRoots(bitmap, leaves) && PrefixSums(Leaves, Ascending(bitmap), cache)
    ensures Rank(bitmap, Last(bitmap)) <= |cache|
    ensures InsertionToPmmrIndex(|dataFile| + 1 + Lookup(bitmap, cache, Last(bitmap))) == |c.hashes| + 1
  {
    hide Root, Full, KeptTo, GoneTo, Stored, Rank, Lookup, LeafCount, Height, HoldsRoots, PrefixSums;
    var n := |c.hashes|;
    RootsInside(bitmap, leaves, n);
    TotalLookup(Leaves, leaves, bitmap, cache, n);
    CountSplits(Leaves, leaves, n);
    StoredLength(Leaves, leaves, n, c.data);
    LeafCountStep(n + 1);
    LeafUnique(n + 1, InsertionToPmmrIndex(LeafCount(n) + 1));
  }

  lemma LeafUnique(p: Pos, q: Pos)
    requires IsLeaf(p) && IsLeaf(q) && LeafCount(p) == LeafCount(q)
    ensures p == q
  {
    hide Size;
  }

  lemma NoRoots()
    ensures HoldsRoots({}, {})
  {
    forall p: Pos ensures !Root({}, p) {
      if Full({}, p) { FullBound({}, p); }
    }
  }

  lemma EmptyFiles()
    ensures FilesHold({}, Contents([], []), [], [])
  {
    CoordAt(Coord(0, 0), 1);
  }

  /**
   Opens anew what a range has left on disk. Whatever was not synced is gone, and the size file need
   not be there: the range is as of the last sync.
   */
  method Reopen(b: PMMRBackend, sizeBytes: seq<byte>) returns (reopened: PMMRBackend)
    requires b.Valid()
    requires sizeBytes == b.dataFile.sizeFile.disk || SumOfSizes(sizeBytes) != |b.dataFile.disk|
    ensures reopened.Valid() && reopened.Synced() && reopened.now == reopened.saved == b.saved
    ensures reopened.leafSet.bitmap == reopened.leafSet.bitmapBak == reopened.leafSet.file == b.leafSet.file
    ensures reopened.pruneList.leaves == b.pruneList.leaves
    ensures reopened.prunable == b.prunable && reopened.dataFile.reader == b.dataFile.reader
    ensures fresh(reopened) && fresh(reopened.hashFile) && fresh(reopened.dataFile) && fresh(reopened.dataFile.sizeFile)
    ensures fresh(reopened.leafSet) && fresh(reopened.pruneList)
  {
    hide FilesStore, PrefixSums, Delimits, Fits, UpTo;
    IndexIs(b.dataFile.sizeFile.committed, b.dataFile.committed);
    reopened := new PMMRBackend.Open(
      b.prunable, b.dataFile.reader, b.hashFile.disk, b.dataFile.disk, sizeBytes, b.leafSet.file, b.pruneList.file,
      b.pruneList.leaves, b.saved, b.hashFile.committed, b.dataFile.committed);
  }
}
