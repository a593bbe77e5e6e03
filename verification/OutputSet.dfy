/** The output range of a chain state: blocks applied, rewound, committed, rolled back and compacted. */
module OutputSets {
  import opened Options
  import opened Mmr
  import opened Navigation
  import opened Pruning
  import opened Chunks
  import opened SizeIndex
  import opened VariableFiles
  import opened LeafSets
  import opened BackendState
  import opened Backends
  import opened Merkle
  import opened MerkleProofs
  import opened Pmmrs
  import opened History
  import Ranks
  import CompactFiles

  /** The range holds exactly the outputs of the blocks, and nothing a rewind may need has been pruned. */
  ghost predicate Holds(blocks: seq<Block>, c: Contents, unspent: set<Pos>, horizon: nat, pruned: set<Pos>) {
    && Linked(blocks)
    && |c.hashes| == SizeAt(blocks, |blocks|) && c.data == OutputsAt(blocks, |blocks|)
    && unspent == UnspentAt(blocks, |blocks|)
    && SafeFrom(blocks, horizon, pruned)
  }

  class OutputSet {
    const pmmr: PMMR
    var blocks: seq<Block>
    var savedBlocks: seq<Block>
    /** Rewinds go back at most to this block. */
    ghost var horizon: nat

    /** What the last commit left, whatever has happened since. */
    ghost predicate SavedHolds()
      reads this, pmmr, pmmr.backend, pmmr.backend.hashFile, pmmr.backend.dataFile, pmmr.backend.dataFile.sizeFile,
            pmmr.backend.pruneList, pmmr.backend.leafSet
    {
      && pmmr.Valid() && pmmr.backend.prunable && pmmr.backend.leafSet.file == pmmr.backend.leafSet.bitmapBak
      && Holds(savedBlocks, pmmr.backend.saved, pmmr.backend.leafSet.bitmapBak, horizon, pmmr.backend.pruneList.leaves)
    }

    ghost predicate Valid()
      reads this, pmmr, pmmr.backend, pmmr.backend.hashFile, pmmr.backend.dataFile, pmmr.backend.dataFile.sizeFile,
            pmmr.backend.pruneList, pmmr.backend.leafSet
    {
      && SavedHolds()
      && Holds(blocks, pmmr.backend.now, pmmr.backend.leafSet.bitmap, horizon, pmmr.backend.pruneList.leaves)
    }

    /** Nothing has been applied since the last commit, so blocks may be rewound. */
    ghost predicate Rewindable()
      reads this, pmmr, pmmr.backend, pmmr.backend.hashFile, pmmr.backend.dataFile, pmmr.backend.dataFile.sizeFile
    {
      && pmmr.backend.hashFile.buffer == [] && pmmr.backend.dataFile.buffer == []
      && pmmr.backend.now.hashes <= pmmr.backend.saved.hashes && pmmr.backend.now.data <= pmmr.backend.saved.data
      && blocks <= savedBlocks
    }

    constructor Empty(elementReader: seq<byte> -> nat, hashing: Hasher)
      requires elementReader([]) == 0 && Produces(hashing, HASH_LEN)
      ensures Valid() && Rewindable() && pmmr.backend.Synced() && blocks == savedBlocks == [] && horizon == 0
      ensures pmmr.backend.pruneList.leaves == {}
      ensures pmmr.backend.dataFile.reader == elementReader && pmmr.hasher == hashing
      ensures fresh(pmmr) && fresh(pmmr.backend) && fresh(pmmr.backend.hashFile) && fresh(pmmr.backend.dataFile)
      ensures fresh(pmmr.backend.dataFile.sizeFile) && fresh(pmmr.backend.leafSet) && fresh(pmmr.backend.pruneList)
    {
      hide PMMRBackend.Valid, Hashed, Produces, Holds;
      var backend := new PMMRBackend.Empty(true, elementReader);
      EmptyHashed(hashing);
      EmptyHolds();
      pmmr := new PMMR.At(backend, hashing, 0);
      blocks, savedBlocks := [], [];
      horizon := 0;
    }

    /** Opens anew what an output set has left on disk, at any time: it is as of the last commit. */
    constructor Reopen(closed: OutputSet, sizeBytes: seq<byte>)
      requires closed.SavedHolds()
      requires var file := closed.pmmr.backend.dataFile;
               sizeBytes == file.sizeFile.disk || SumOfSizes(sizeBytes) != |file.disk|
      ensures Valid() && Rewindable() && pmmr.backend.Synced()
      ensures blocks == savedBlocks == closed.savedBlocks && horizon == closed.horizon
      ensures pmmr.backend.pruneList.leaves == closed.pmmr.backend.pruneList.leaves
      ensures pmmr.backend.dataFile.reader == closed.pmmr.backend.dataFile.reader && pmmr.hasher == closed.pmmr.hasher
      ensures fresh(pmmr) && fresh(pmmr.backend) && fresh(pmmr.backend.hashFile) && fresh(pmmr.backend.dataFile)
      ensures fresh(pmmr.backend.dataFile.sizeFile) && fresh(pmmr.backend.leafSet) && fresh(pmmr.backend.pruneList)
    {
      hide PMMRBackend.Valid, Hashed, Produces, Linked, UnspentAt, OutputsAt, SafeFrom;
      var backend := Backends.Reopen(closed.pmmr.backend, sizeBytes);
      pmmr := new PMMR.At(backend, closed.pmmr.hasher, SizeAt(closed.savedBlocks, |closed.savedBlocks|));
      blocks, savedBlocks := closed.savedBlocks, closed.savedBlocks;
      horizon := closed.horizon;
    }

    /** Every unspent output can be read, with the data its block gave it. */
    method GetUnspent(pos: Pos) returns (data: Option<Bytes>)
      requires Valid()
      ensures pos !in UnspentAt(blocks, |blocks|) ==> data == None
      ensures pos in UnspentAt(blocks, |blocks|) ==>
                && 0 < LeafCount(pos) <= |OutputsAt(blocks, |blocks|)|
                && data == Some(OutputsAt(blocks, |blocks|)[LeafCount(pos) - 1])
    {
      hide PMMRBackend.Valid, PMMRBackend.Readable, Hashed, LeafCount, WholeSize, UnspentAt, OutputsAt, Linked;
      hide SafeFrom, IsLeaf, Compacted;
      pmmr.Unfold();
      if pos in UnspentAt(blocks, |blocks|) {
        UnspentIsKept(blocks, horizon, pmmr.backend.pruneList.leaves, pos);
        LeafCountWithin(pmmr.backend.now, pos);
      }
      pmmr.CanRead();
      data := pmmr.backend.GetData(pos);
    }

    /**
     The Merkle proof of an unspent output. However much has been compacted, every unspent output has
     one, and it leads from the output's data to the root.
     */
    method ProveUnspent(pos: Pos) returns (proof: Option<MerkleProof>)
      requires Valid()
      ensures proof.Some? <==> pos in UnspentAt(blocks, |blocks|)
      ensures proof.Some? ==>
                && Whole(pmmr.backend.now) && |pmmr.backend.now.hashes| == proof.value.mmrSize > 0
                && 0 < LeafCount(pos) <= |OutputsAt(blocks, |blocks|)|
                && var output := Data(OutputsAt(blocks, |blocks|)[LeafCount(pos) - 1]);
                   var size := proof.value.mmrSize;
                   RootBy(pmmr.hasher, size, NodeHash(pmmr.hasher, size, output, pos), pos, proof.value.path) ==
                   RootOf(pmmr.hasher, pmmr.backend.now)
    {
      hide PMMRBackend.Valid, Hashed, LeafCount, UnspentAt, OutputsAt, Linked, IsLeaf, RootBy, RootOf, PMMR.Valid;
      hide WholeSize;
      pmmr.Unfold();
      if pos in UnspentAt(blocks, |blocks|) {
        UnspentIsKept(blocks, horizon, pmmr.backend.pruneList.leaves, pos);
        LeafHash(pmmr.hasher, pmmr.backend.now, pos);
      }
      proof := pmmr.ProofOf(pos);
    }

    /** Undoes the last block: drops the outputs it added and puts back what it spent. */
    method RewindSingleBlock()
      requires Valid() && Rewindable() && horizon < |blocks|
      modifies this`blocks, pmmr`lastPos, pmmr.backend`now, pmmr.backend.leafSet`bitmap
      modifies pmmr.backend.hashFile`bufferStartPos, pmmr.backend.hashFile`bufferStartPosBak
      modifies pmmr.backend.hashFile`working
      modifies pmmr.backend.dataFile`bufferStartPos, pmmr.backend.dataFile`bufferStartPosBak
      modifies pmmr.backend.dataFile`working
      modifies pmmr.backend.dataFile.sizeFile`bufferStartPos, pmmr.backend.dataFile.sizeFile`bufferStartPosBak
      modifies pmmr.backend.dataFile.sizeFile`working
      ensures Valid() && Rewindable()
      ensures blocks == old(blocks)[..|old(blocks)| - 1]
    {
      hide PMMRBackend.Valid, Hashed, WholeSize, SafeFrom, Linked, UnspentAt, OutputsAt, Rewound, LeafCount;
      ghost var n := |blocks|;
      ghost var leaves := pmmr.backend.pruneList.leaves;
      pmmr.Unfold();
      var header := blocks[|blocks| - 1];
      var prevSize := SizeAt(blocks, |blocks| - 1);
      RewindTarget(blocks, savedBlocks, horizon, leaves);
      pmmr.Rewind(prevSize, header.spent);
      RewoundHolds(blocks, savedBlocks, pmmr.backend.saved, horizon, leaves, pmmr.lastPos);
      blocks := blocks[..|blocks| - 1];
    }

    /** Rewinds block by block to the state after the first `height` blocks. */
    method RewindTo(height: nat)
      requires Valid() && Rewindable() && horizon <= height <= |blocks|
      modifies this`blocks, pmmr`lastPos, pmmr.backend`now, pmmr.backend.leafSet`bitmap
      modifies pmmr.backend.hashFile`bufferStartPos, pmmr.backend.hashFile`bufferStartPosBak
      modifies pmmr.backend.hashFile`working
      modifies pmmr.backend.dataFile`bufferStartPos, pmmr.backend.dataFile`bufferStartPosBak
      modifies pmmr.backend.dataFile`working
      modifies pmmr.backend.dataFile.sizeFile`bufferStartPos, pmmr.backend.dataFile.sizeFile`bufferStartPosBak
      modifies pmmr.backend.dataFile.sizeFile`working
      ensures Valid() && Rewindable()
      ensures blocks == old(blocks)[..height]
    {
      hide *;
      while height < |blocks|
        invariant Valid() && Rewindable()
        invariant height <= |blocks| <= |old(blocks)| && blocks == old(blocks)[..|blocks|]
        decreases |blocks|
      {
        ghost var before := blocks;
        RewindSingleBlock();
        assert blocks == before[..|before| - 1];
      }
    }

    method Commit() returns (ok: bool)
      requires Valid()
      modifies this`savedBlocks, pmmr.backend`saved, pmmr.backend.leafSet`bitmapBak, pmmr.backend.leafSet`file
      modifies pmmr.backend.hashFile`disk, pmmr.backend.hashFile`buffer, pmmr.backend.hashFile`bufferStartPos
      modifies pmmr.backend.hashFile`bufferStartPosBak, pmmr.backend.hashFile`committed
      modifies pmmr.backend.dataFile`disk, pmmr.backend.dataFile`buffer, pmmr.backend.dataFile`bufferStartPos
      modifies pmmr.backend.dataFile`bufferStartPosBak, pmmr.backend.dataFile`committed
      modifies pmmr.backend.dataFile.sizeFile`disk, pmmr.backend.dataFile.sizeFile`buffer
      modifies pmmr.backend.dataFile.sizeFile`bufferStartPos, pmmr.backend.dataFile.sizeFile`bufferStartPosBak
      modifies pmmr.backend.dataFile.sizeFile`committed
      ensures ok && Valid() && Rewindable() && pmmr.backend.Synced()
      ensures savedBlocks == blocks
    {
      hide PMMRBackend.Valid, Hashed, Holds, Produces;
      ok := pmmr.backend.Sync();
      savedBlocks := blocks;
    }

    /** Whatever has been applied or rewound since the last commit is undone. */
    method Rollback()
      requires SavedHolds()
      modifies this`blocks, pmmr`lastPos, pmmr.backend`now, pmmr.backend.leafSet`bitmap
      modifies pmmr.backend.hashFile`buffer, pmmr.backend.hashFile`bufferStartPos
      modifies pmmr.backend.hashFile`bufferStartPosBak, pmmr.backend.hashFile`working
      modifies pmmr.backend.dataFile`buffer, pmmr.backend.dataFile`bufferStartPos
      modifies pmmr.backend.dataFile`bufferStartPosBak, pmmr.backend.dataFile`working
      modifies pmmr.backend.dataFile.sizeFile`buffer, pmmr.backend.dataFile.sizeFile`bufferStartPos
      modifies pmmr.backend.dataFile.sizeFile`bufferStartPosBak, pmmr.backend.dataFile.sizeFile`working
      ensures Valid() && Rewindable() && pmmr.backend.Synced()
      ensures blocks == savedBlocks
    {
      hide PMMRBackend.Valid, Hashed, Produces, Linked, UnspentAt, OutputsAt, SafeFrom;
      pmmr.backend.Discard();
      blocks := savedBlocks;
      pmmr.lastPos := SizeAt(blocks, |blocks|);
    }

    /** The positions spent by every block after the `height`-th. */
    method InputPosToRewind(height: nat) returns (bitmap: set<Pos>)
      requires height <= |blocks|
      ensures bitmap == SpentSince(blocks, height, |blocks|)
    {
      bitmap := {};
      for t := height to |blocks|
        invariant bitmap == SpentSince(blocks, height, t)
      {
        bitmap := bitmap + blocks[t].spent;
      }
    }

    /** Compacts behind a horizon: what was spent by then is pruned, and no output that a rewind to it may need. */
    method Compact(height: nat)
      requires Valid() && pmmr.backend.Synced() && blocks == savedBlocks
      requires horizon <= height <= |blocks|
      modifies this`horizon, pmmr.backend.leafSet`bitmapBak, pmmr.backend.leafSet`file, pmmr.backend.pruneList
      modifies pmmr.backend.hashFile`disk, pmmr.backend.hashFile`bufferStartPos
      modifies pmmr.backend.hashFile`committed, pmmr.backend.hashFile`working
      modifies pmmr.backend.dataFile`disk, pmmr.backend.dataFile`bufferStartPos
      modifies pmmr.backend.dataFile`committed, pmmr.backend.dataFile`working
      modifies pmmr.backend.dataFile.sizeFile`disk, pmmr.backend.dataFile.sizeFile`bufferStartPos
      modifies pmmr.backend.dataFile.sizeFile`committed, pmmr.backend.dataFile.sizeFile`working
      ensures Valid() && pmmr.backend.Synced() && Rewindable()
      ensures horizon == height
      ensures forall x: Pos :: x in pmmr.backend.pruneList.leaves <==>
                IsLeaf(x) && x <= SizeAt(blocks, height) && x !in UnspentAt(blocks, height)
    {
      hide PMMRBackend.Valid, PMMRBackend.Readable, Hashed, Produces, Linked, UnspentAt, OutputsAt, SafeFrom;
      hide PrunedAt, SpentSince, Compacted, IsLeaf;
      var rewindRmPos := InputPosToRewind(height);
      SizesGrow(blocks, height, |blocks|);
      ghost var before := pmmr.backend.pruneList.leaves;
      PrunedLeaves(pmmr.backend);
      pmmr.backend.CheckCompact(SizeAt(blocks, height), rewindRmPos);
      PrunedIsDead(blocks, horizon, height, before, pmmr.backend.pruneList.leaves);
      PruneIsSafe(blocks, horizon, height, before, pmmr.backend.pruneList.leaves);
      horizon := height;
    }

    /** Pushes the outputs of a block. */
    method PushAll(outputs: seq<Bytes>)
      requires pmmr.Valid() && pmmr.backend.prunable
      requires forall e :: e in outputs ==> Delimits(pmmr.backend.dataFile.reader, e) && |e| < MAX_SIZE
      requires |Concat(pmmr.backend.dataFile.working)| + |Concat(outputs)| < MAX_OFFSET
      modifies pmmr`lastPos, pmmr.backend`now, pmmr.backend.leafSet`bitmap
      modifies pmmr.backend.hashFile`buffer, pmmr.backend.hashFile`working
      modifies pmmr.backend.dataFile`buffer, pmmr.backend.dataFile`working
      modifies pmmr.backend.dataFile.sizeFile`buffer, pmmr.backend.dataFile.sizeFile`working
      ensures pmmr.Valid()
      ensures pmmr.backend.now.data == old(pmmr.backend.now.data) + outputs
      ensures old(pmmr.lastPos) <= pmmr.lastPos
      ensures pmmr.backend.leafSet.bitmap ==
              old(pmmr.backend.leafSet.bitmap) + LeavesBetween(old(pmmr.lastPos), pmmr.lastPos)
    {
      hide PMMRBackend.Valid, Hashed, Produces, Delimits, WholeSize, UpTo, LeafCount, Concat, LeavesBetween, PMMR.Valid;
      ghost var start, unspent, file, data := pmmr.lastPos, pmmr.backend.leafSet.bitmap, pmmr.backend.dataFile.working,
        pmmr.backend.now.data;
      NoLeavesBetween(start);
      for i := 0 to |outputs|
        modifies pmmr`lastPos, pmmr.backend`now, pmmr.backend.leafSet`bitmap
        modifies pmmr.backend.hashFile`buffer, pmmr.backend.hashFile`working
        modifies pmmr.backend.dataFile`buffer, pmmr.backend.dataFile`working
        modifies pmmr.backend.dataFile.sizeFile`buffer, pmmr.backend.dataFile.sizeFile`working
        invariant pmmr.Valid() && start <= pmmr.lastPos
        invariant pmmr.backend.dataFile.working == file + outputs[..i]
        invariant pmmr.backend.now.data == data + outputs[..i]
        invariant pmmr.backend.leafSet.bitmap == unspent + LeavesBetween(start, pmmr.lastPos)
      {
        assert outputs[i] in outputs;
        assert outputs[..i + 1] == outputs[..i] + [outputs[i]];
        RoomLeft(file, outputs, i);
        ghost var size := pmmr.lastPos;
        pmmr.Unfold();
        var pos := pmmr.Push(outputs[i]);
        pmmr.Unfold();
        OneMoreLeaf(start, size, pmmr.lastPos);
      }
      assert outputs[..|outputs|] == outputs;
    }

    /** Spends outputs one by one; fails on one that is not there or spent already. */
    method SpendAll(inputs: seq<Pos>) returns (ok: bool)
      requires pmmr.Valid() && pmmr.backend.prunable
      requires forall x :: x in inputs && x in pmmr.backend.leafSet.bitmap ==>
                 IsLeaf(x) && HashAt(pmmr.backend.pruneList.leaves, pmmr.backend.now, x).Some?
      modifies pmmr.backend.leafSet`bitmap
      ensures pmmr.Valid()
      ensures ok <==> Spendable(old(pmmr.backend.leafSet.bitmap), inputs)
      ensures ok ==> pmmr.backend.leafSet.bitmap == old(pmmr.backend.leafSet.bitmap) - Positions(inputs)
    {
      hide PMMRBackend.Valid, Hashed, Produces, IsLeaf, Compacted;
      ghost var unspent := pmmr.backend.leafSet.bitmap;
      for i := 0 to |inputs|
        modifies pmmr.backend.leafSet`bitmap
        invariant pmmr.Valid()
        invariant Spendable(unspent, inputs[..i])
        invariant pmmr.backend.leafSet.bitmap == unspent - Positions(inputs[..i])
      {
        assert inputs[..i + 1] == inputs[..i] + [inputs[i]];
        assert inputs[i] in inputs;
        SpendStep(unspent, inputs, i);
        var pruned := pmmr.Prune(inputs[i]);
        if pruned != Some(true) {
          return false;
        }
      }
      assert inputs[..|inputs|] == inputs;
      return true;
    }

    /**
     Applies a block: its outputs are added, then its inputs spent. It succeeds exactly when the
     inputs are distinct unspent outputs; after a failure a rollback restores the last commit.
     */
    method ApplyBlock(outputs: seq<Bytes>, inputs: seq<Pos>) returns (ok: bool)
      requires Valid()
      requires forall e :: e in outputs ==> Delimits(pmmr.backend.dataFile.reader, e) && |e| < MAX_SIZE
      requires |Concat(pmmr.backend.dataFile.working)| + |Concat(outputs)| < MAX_OFFSET
      requires forall x :: x in inputs ==> x <= pmmr.lastPos
      modifies this`blocks, pmmr`lastPos, pmmr.backend`now, pmmr.backend.leafSet`bitmap
      modifies pmmr.backend.hashFile`buffer, pmmr.backend.hashFile`working
      modifies pmmr.backend.dataFile`buffer, pmmr.backend.dataFile`working
      modifies pmmr.backend.dataFile.sizeFile`buffer, pmmr.backend.dataFile.sizeFile`working
      ensures SavedHolds()
      ensures ok <==> Spendable(UnspentAt(old(blocks), |old(blocks)|), inputs)
      ensures ok ==> Valid() && blocks == old(blocks) + [Block(pmmr.lastPos, outputs, Positions(inputs))]
    {
      hide PMMRBackend.Valid, Hashed, Produces, Delimits, WholeSize, LeafCount, Concat, LeavesBetween, Linked, SafeFrom;
      hide UnspentAt, OutputsAt, Spendable, Positions, Compacted, IsLeaf;
      ghost var unspent, leaves := pmmr.backend.leafSet.bitmap, pmmr.backend.pruneList.leaves;
      ghost var start := pmmr.lastPos;
      UnspentReadable(blocks, horizon, leaves);
      PushAll(outputs);
      pmmr.Unfold();
      ghost var grown := pmmr.backend.leafSet.bitmap;
      InputsOld(unspent, start, pmmr.lastPos, inputs);
      assert forall x :: x in inputs && x in grown ==> x in unspent;
      ok := SpendAll(inputs);
      if ok {
        AppliedHolds(blocks, Block(pmmr.lastPos, outputs, Positions(inputs)), pmmr.backend.now, inputs, horizon,
          leaves);
        blocks := blocks + [Block(pmmr.lastPos, outputs, Positions(inputs))];
      }
    }
  }

  lemma PrunedLeaves(backend: PMMRBackend)
    requires backend.Valid()
    ensures LeavesOnly(backend.pruneList.leaves)
  {
  }

  function Positions(inputs: seq<Pos>): set<Pos> {
    set x | x in inputs
  }

  /** Distinct positions, all of them unspent. */
  ghost predicate Spendable(unspent: set<Pos>, inputs: seq<Pos>) {
    && (forall i :: 0 <= i < |inputs| ==> inputs[i] in unspent)
    && (forall i, j :: 0 <= i < j < |inputs| ==> inputs[i] != inputs[j])
  }

  lemma LeafHash(hasher: Hasher, c: Contents, p: Pos)
    requires Hashed(hasher, c) && p <= |c.hashes| && IsLeaf(p)
    ensures 0 < LeafCount(p) <= |c.data|
    ensures c.hashes[p - 1] == NodeHash(hasher, |c.hashes|, Data(c.data[LeafCount(p) - 1]), p)
  {
    hide IsLeaf, LeafCount;
    LeafCountWithin(c, p);
    assert HashedAt(hasher, c, p);
  }

  lemma SpendStep(unspent: set<Pos>, inputs: seq<Pos>, i: nat)
    requires i < |inputs| && Spendable(unspent, inputs[..i])
    ensures inputs[i] in unspent - Positions(inputs[..i]) <==> Spendable(unspent, inputs[..i + 1])
    ensures Positions(inputs[..i + 1]) == Positions(inputs[..i]) + {inputs[i]}
    ensures Spendable(unspent, inputs) ==> Spendable(unspent, inputs[..i + 1])
  {
    var head := inputs[..i];
    var next := inputs[..i + 1];
    assert next == head + [inputs[i]];
    assert forall j :: 0 <= j < i ==> next[j] == head[j];
    if Spendable(unspent, next) {
      assert next[i] in unspent;
      assert forall j :: 0 <= j < i ==> head[j] != inputs[i] by {
        assert forall j :: 0 <= j < i ==> next[j] != next[i];
      }
    }
  }

  lemma UnspentReadable(blocks: seq<Block>, horizon: nat, leaves: set<Pos>)
    requires Linked(blocks) && SafeFrom(blocks, horizon, leaves)
    ensures forall x :: x in UnspentAt(blocks, |blocks|) ==>
              IsLeaf(x) && x <= SizeAt(blocks, |blocks|) && !Compacted(leaves, x)
  {
    hide *;
    forall x | x in UnspentAt(blocks, |blocks|)
      ensures IsLeaf(x) && x <= SizeAt(blocks, |blocks|) && !Compacted(leaves, x) {
      UnspentIsKept(blocks, horizon, leaves, x);
    }
  }

  lemma InputsOld(unspent: set<Pos>, start: nat, end: nat, inputs: seq<Pos>)
    requires forall x :: x in inputs ==> x <= start
    ensures forall x :: x in inputs && x in unspent + LeavesBetween(start, end) ==> x in unspent
    ensures Spendable(unspent + LeavesBetween(start, end), inputs) <==> Spendable(unspent, inputs)
  {
    forall i | 0 <= i < |inputs| ensures inputs[i] in unspent + LeavesBetween(start, end) <==> inputs[i] in unspent {
      assert inputs[i] in inputs;
    }
  }

  lemma AppliedHolds(blocks: seq<Block>, b: Block, c: Contents, inputs: seq<Pos>, horizon: nat, leaves: set<Pos>)
    requires Linked(blocks) && SafeFrom(blocks, horizon, leaves)
    requires Whole(c) && |c.hashes| == b.size && SizeAt(blocks, |blocks|) <= b.size
    requires c.data == OutputsAt(blocks, |blocks|) + b.outputs
    requires b.spent == Positions(inputs) && Spendable(UnspentAt(blocks, |blocks|), inputs)
    ensures Holds(blocks + [b], c,
                  UnspentAt(blocks, |blocks|) + LeavesBetween(SizeAt(blocks, |blocks|), b.size) - b.spent, horizon,
                    leaves)
  {
    hide WholeSize, LeafCount, UnspentAt, OutputsAt, LeavesBetween, Linked, SafeFrom;
    assert b.spent <= UnspentAt(blocks, |blocks|);
    Extends(blocks, b);
    ExtendIsSafe(blocks, b, horizon, leaves);
  }

  lemma NoLeavesBetween(size: nat)
    ensures LeavesBetween(size, size) == {}
  {
  }

  /** One more leaf in the count is the one right after a whole size. */
  lemma OneMoreLeaf(start: nat, size: nat, next: nat)
    requires start <= size < next && WholeSize(size) && LeafCount(next) == LeafCount(size) + 1
    ensures LeavesBetween(start, next) == LeavesBetween(start, size) + {size + 1}
  {
    hide LeafCount, IsLeaf;
    forall p: Pos | size < p <= next && IsLeaf(p) ensures p == size + 1 {
      LeafRanks(size, p, next);
    }
  }

  lemma LeafRanks(size: nat, p: Pos, next: nat)
    requires size < p <= next && IsLeaf(p) && WholeSize(size) && LeafCount(next) == LeafCount(size) + 1
    ensures p == size + 1
  {
    hide LeafCount, IsLeaf;
    Ranks.LeafCountStep(p);
    Ranks.LeafCountStep(size + 1);
    CompactFiles.CountMonotone(Ranks.Leaves, size, p - 1);
    CompactFiles.CountMonotone(Ranks.Leaves, p, next);
    LeafUnique(p, size + 1);
  }

  lemma RoomLeft(file: seq<Bytes>, outputs: seq<Bytes>, i: nat)
    requires i < |outputs| && |Concat(file)| + |Concat(outputs)| < MAX_OFFSET
    ensures |Concat(file + outputs[..i])| + |outputs[i]| < MAX_OFFSET
  {
    ConcatAppend(file, outputs[..i]);
    ElementAt(outputs, i);
  }

  lemma EmptyHolds()
    ensures Holds([], Contents([], []), {}, 0, {})
  {
  }

  lemma EmptyHashed(hasher: Hasher)
    ensures Hashed(hasher, Contents([], []))
  {
    EmptyFiles();
  }

  lemma RewindTarget(blocks: seq<Block>, savedBlocks: seq<Block>, horizon: nat, leaves: set<Pos>)
    requires Linked(blocks) && SafeFrom(blocks, horizon, leaves) && horizon < |blocks|
    ensures WholeSize(SizeAt(blocks, |blocks| - 1))
    ensures SizeAt(blocks, |blocks| - 1) <= SizeAt(blocks, |blocks|)
    ensures UpTo(leaves, SizeAt(blocks, |blocks| - 1))
  {
    var t := |blocks| - 1;
    if t > 0 { assert BlockFits(blocks, t); } else { LeafAt(0); }
    assert BlockFits(blocks, t + 1);
    SizesGrow(blocks, horizon, t);
  }

  lemma RewoundHolds(blocks: seq<Block>, savedBlocks: seq<Block>, saved: Contents, horizon: nat, leaves: set<Pos>,
      size: nat)
    requires Linked(blocks) && SafeFrom(blocks, horizon, leaves) && horizon < |blocks|
    requires blocks <= savedBlocks && Linked(savedBlocks)
    requires |saved.hashes| == SizeAt(savedBlocks, |savedBlocks|) && saved.data == OutputsAt(savedBlocks, |savedBlocks|)
    requires NextWhole(SizeAt(blocks, |blocks| - 1), size)
    requires size <= |saved.hashes| && LeafCount(size) <= |saved.data|
    ensures Holds(blocks[..|blocks| - 1], Cut(saved, size),
                  Rewound(UnspentAt(blocks, |blocks|), size, blocks[|blocks| - 1].spent), horizon, leaves)
  {
    hide WholeSize, LeafCount, UnspentAt, IsLeaf;
    var t := |blocks| - 1;
    RewindTarget(blocks, savedBlocks, horizon, leaves);
    assert size == SizeAt(blocks, t);
    LinkedPrefix(blocks, t);
    SafePrefix(blocks, horizon, leaves, t);
    PrefixAgrees(blocks, t, t);
    RewindOneBlock(blocks, t + 1);
    assert blocks[..t] == savedBlocks[..t];
    OutputsPrefix(savedBlocks, t, |savedBlocks|);
    PrefixAgrees(savedBlocks, t, t);
    OutputsCount(savedBlocks, t);
    assert SizeAt(savedBlocks, t) == SizeAt(blocks, t);
  }

  lemma OutputsCount(blocks: seq<Block>, t: nat)
    requires Linked(blocks) && t <= |blocks|
    ensures |OutputsAt(blocks, t)| == LeafCount(SizeAt(blocks, t))
  {
    if t > 0 { assert BlockFits(blocks, t); }
  }

  lemma {:induction false} OutputsPrefix(blocks: seq<Block>, t: nat, n: nat)
    requires t <= n <= |blocks|
    ensures |OutputsAt(blocks, t)| <= |OutputsAt(blocks, n)|
    ensures OutputsAt(blocks, n)[..|OutputsAt(blocks, t)|] == OutputsAt(blocks, t)
    decreases n
  {
    if t < n { OutputsPrefix(blocks, t, n - 1); }
  }
}
