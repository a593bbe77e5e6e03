/** The output set moved from one branch of the block tree to another. */
module ForkState {
  import opened Mmr
  import opened Navigation
  import opened Pruning
  import opened Chunks
  import opened SizeIndex
  import opened VariableFiles
  import opened BackendState
  import opened Backends
  import opened Merkle
  import opened History
  import opened OutputSets
  import ChainTree
  import Ranks
  import CompactFiles

  /** What a block adds and spends. */
  datatype Body = Body(outputs: seq<Bytes>, inputs: seq<Pos>)

  type Hash = ChainTree.Hash

  type Bodies = map<Hash, Body>

  ghost predicate Has(bodies: Bodies, chain: seq<Hash>) {
    forall k :: 0 <= k < |chain| ==> chain[k] in bodies
  }

  ghost function NextBlock(before: seq<Block>, body: Body): Block {
    Block(Size(|OutputsAt(before, |before|)| + |body.outputs|), body.outputs, Positions(body.inputs))
  }

  /** The history of a branch, from genesis on. */
  ghost function BlocksOf(bodies: Bodies, chain: seq<Hash>): (blocks: seq<Block>)
    requires Has(bodies, chain)
    ensures |blocks| == |chain|
  {
    if chain == [] then []
    else
      var before := BlocksOf(bodies, chain[..|chain| - 1]);
      before + [NextBlock(before, bodies[chain[|chain| - 1]])]
  }

  lemma {:induction false} HistoryPrefix(bodies: Bodies, chain: seq<Hash>, k: nat)
    requires Has(bodies, chain) && k <= |chain|
    ensures BlocksOf(bodies, chain)[..k] == BlocksOf(bodies, chain[..k])
    decreases |chain|
  {
    if k < |chain| {
      var n := |chain| - 1;
      HistoryPrefix(bodies, chain[..n], k);
      assert chain[..n][..k] == chain[..k];
      assert BlocksOf(bodies, chain)[..k] == BlocksOf(bodies, chain[..n])[..k];
    } else {
      assert chain[..k] == chain;
    }
  }

  /** The block at height `k` spends distinct outputs that are unspent on its branch. */
  ghost predicate Follows(bodies: Bodies, chain: seq<Hash>, k: nat)
    requires Has(bodies, chain) && k < |chain|
  {
    Spendable(UnspentAt(BlocksOf(bodies, chain[..k]), k), bodies[chain[k]].inputs)
  }

  /** What is asked of the blocks of a branch: old inputs, outputs that can be written, room for all of them. */
  ghost predicate Writable(reader: seq<byte> -> nat, bodies: Bodies, chain: seq<Hash>) {
    && Has(bodies, chain)
    && |Concat(OutputsAt(BlocksOf(bodies, chain), |chain|))| < MAX_OFFSET
    && forall k :: 0 <= k < |chain| ==> WritableAt(reader, bodies, chain, k)
  }

  ghost predicate WritableAt(reader: seq<byte> -> nat, bodies: Bodies, chain: seq<Hash>, k: nat)
    requires Has(bodies, chain) && k < |chain|
  {
    && (forall x :: x in bodies[chain[k]].inputs ==> x <= SizeAt(BlocksOf(bodies, chain[..k]), k))
    && (forall e :: e in bodies[chain[k]].outputs ==> Delimits(reader, e) && |e| < MAX_SIZE)
  }

  /** The data file holds no more bytes than everything appended. */
  lemma {:induction false} StoredBytes(leaves: set<Pos>, n: nat, data: seq<Bytes>)
    requires LeafCount(n) <= |data|
    ensures |Concat(CompactFiles.Stored(Ranks.Leaves, leaves, n, data))| <= |Concat(data[..LeafCount(n)])|
  {
    hide Ranks.Kept, LeafCount, Concat;
    if n == 0 {
      NoBytes();
    } else {
      Ranks.CountStep(Ranks.Leaves, n);
      Ranks.LeafCountStep(n);
      StoredBytes(leaves, n - 1, data);
      if Ranks.Kept(Ranks.Leaves, leaves, n) { CompactFiles.KeptCounted(Ranks.Leaves, leaves, n); }
      var file := CompactFiles.Stored(Ranks.Leaves, leaves, n - 1, data);
      assert file + [] == file;
      var c := LeafCount(n - 1);
      if c < LeafCount(n) {
        assert data[..c + 1] == data[..c] + [data[c]];
        ConcatAppend(data[..c], [data[c]]);
        ConcatAppend(file, [data[c]]);
      }
    }
  }

  lemma NoBytes()
    ensures Concat([]) == []
  {
  }

  lemma FileBytes(utxo: OutputSet)
    requires utxo.Valid()
    ensures |Concat(utxo.pmmr.backend.dataFile.working)| <= |Concat(OutputsAt(utxo.blocks, |utxo.blocks|))|
  {
    hide Concat, OutputsAt, LeafCount, Hashed, Linked, UnspentAt, SafeFrom;
    var b := utxo.pmmr.backend;
    utxo.pmmr.Unfold();
    Filed(b);
    StoredBytes(b.pruneList.leaves, |b.now.hashes|, b.now.data);
    assert b.now.data[..|b.now.data|] == b.now.data;
  }

  lemma Filed(b: PMMRBackend)
    requires b.Valid()
    ensures Whole(b.now)
    ensures b.dataFile.working == CompactFiles.Stored(Ranks.Leaves, b.pruneList.leaves, |b.now.hashes|, b.now.data)
  {
  }

  lemma {:induction false} BytesGrow(blocks: seq<Block>, t: nat, n: nat)
    requires t <= n <= |blocks|
    ensures |Concat(OutputsAt(blocks, t))| <= |Concat(OutputsAt(blocks, n))|
    decreases n
  {
    hide Concat;
    if t < n {
      BytesGrow(blocks, t, n - 1);
      ConcatAppend(OutputsAt(blocks, n - 1), blocks[n - 1].outputs);
    }
  }

  /** The next block of a branch has room in the file. */
  lemma RoomForNext(bodies: Bodies, chain: seq<Hash>, k: nat)
    requires Has(bodies, chain) && k < |chain|
    ensures |Concat(OutputsAt(BlocksOf(bodies, chain[..k]), k))| + |Concat(bodies[chain[k]].outputs)|
         <= |Concat(OutputsAt(BlocksOf(bodies, chain), |chain|))|
  {
    hide Concat;
    var blocks := BlocksOf(bodies, chain);
    HistoryStep(bodies, chain, k);
    HistoryPrefix(bodies, chain, k);
    PrefixAgrees(blocks, k, k);
    BytesGrow(blocks, k + 1, |chain|);
    ConcatAppend(OutputsAt(blocks, k), blocks[k].outputs);
  }

  lemma HistoryStep(bodies: Bodies, chain: seq<Hash>, k: nat)
    requires Has(bodies, chain) && k < |chain|
    ensures var before := BlocksOf(bodies, chain[..k]);
            BlocksOf(bodies, chain[..k + 1]) == before + [NextBlock(before, bodies[chain[k]])]
    ensures BlocksOf(bodies, chain)[k].outputs == bodies[chain[k]].outputs
  {
    assert chain[..k + 1][..k] == chain[..k];
    HistoryPrefix(bodies, chain, k + 1);
    assert BlocksOf(bodies, chain)[..k + 1][k] == BlocksOf(bodies, chain)[k];
  }

  /** An applied block has the size its outputs make. */
  lemma AppliedIsNext(before: seq<Block>, b: Block, body: Body)
    requires Linked(before + [b]) && b.outputs == body.outputs && b.spent == Positions(body.inputs)
    ensures b == NextBlock(before, body)
  {
    hide Size, LeafCount, WholeSize, UnspentAt;
    var all, n := before + [b], |before|;
    assert BlockFits(all, n + 1);
    assert all[..n] == before;
    PrefixAgrees(all, n, n);
    NewNode(b.size, 0);
  }

  /** Up to the fork point the two histories are one. */
  lemma AtFork(bodies: Bodies, current: seq<Hash>, chain: seq<Hash>, fork: nat)
    requires Has(bodies, current) && Has(bodies, chain) && fork == ChainTree.Common(current, chain)
    ensures fork <= |current| && fork <= |chain|
    ensures BlocksOf(bodies, current)[..fork] == BlocksOf(bodies, chain[..fork])
  {
    HistoryPrefix(bodies, current, fork);
  }

  lemma NextIsWritable(utxo: OutputSet, bodies: Bodies, chain: seq<Hash>, k: nat)
    requires utxo.Valid() && k < |chain| && Writable(utxo.pmmr.backend.dataFile.reader, bodies, chain)
    requires utxo.blocks == BlocksOf(bodies, chain[..k])
    ensures chain[k] in bodies
    ensures forall e :: e in bodies[chain[k]].outputs ==>
              Delimits(utxo.pmmr.backend.dataFile.reader, e) && |e| < MAX_SIZE
    ensures |Concat(utxo.pmmr.backend.dataFile.working)| + |Concat(bodies[chain[k]].outputs)| < MAX_OFFSET
    ensures forall x :: x in bodies[chain[k]].inputs ==> x <= utxo.pmmr.lastPos
    ensures utxo.SavedHolds()
  {
    hide Concat, OutputsAt, Hashed, Linked, UnspentAt, SafeFrom, BlocksOf, Delimits, PMMRBackend.Valid;
    assert WritableAt(utxo.pmmr.backend.dataFile.reader, bodies, chain, k);
    FileBytes(utxo);
    RoomForNext(bodies, chain, k);
  }

  /** Applying the next block tells whether it follows. */
  lemma FollowsAt(bodies: Bodies, chain: seq<Hash>, k: nat)
    requires Has(bodies, chain) && k < |chain|
    ensures var before := BlocksOf(bodies, chain[..k]);
            Follows(bodies, chain, k) <==> Spendable(UnspentAt(before, |before|), bodies[chain[k]].inputs)
  {
  }

  lemma StateIsLinked(utxo: OutputSet)
    requires utxo.Valid()
    ensures Linked(utxo.blocks) && utxo.SavedHolds()
  {
    hide Linked, PMMRBackend.Valid, Hashed, SafeFrom;
  }

  lemma HasAll(reader: seq<byte> -> nat, bodies: Bodies, chain: seq<Hash>)
    requires Writable(reader, bodies, chain)
    ensures Has(bodies, chain)
  {
  }

  /**
   Rewinds to the fork point and applies the blocks of the other branch. For every fork point from the
   horizon on it succeeds exactly if each of them spends what is unspent on its own branch, and the
   state is then that of the branch; if not, a rollback still leads back to the last commit.
   */
  method SwitchBranch(utxo: OutputSet, bodies: Bodies, current: seq<Hash>, chain: seq<Hash>) returns (ok: bool)
    requires utxo.Valid() && utxo.Rewindable()
    requires Has(bodies, current) && utxo.blocks == BlocksOf(bodies, current)
    requires Writable(utxo.pmmr.backend.dataFile.reader, bodies, chain)
    requires utxo.horizon <= ChainTree.Common(current, chain)
    modifies utxo`blocks, utxo.pmmr`lastPos, utxo.pmmr.backend`now, utxo.pmmr.backend.leafSet`bitmap
    modifies utxo.pmmr.backend.hashFile`buffer, utxo.pmmr.backend.hashFile`bufferStartPos
    modifies utxo.pmmr.backend.hashFile`bufferStartPosBak, utxo.pmmr.backend.hashFile`working
    modifies utxo.pmmr.backend.dataFile`buffer, utxo.pmmr.backend.dataFile`bufferStartPos
    modifies utxo.pmmr.backend.dataFile`bufferStartPosBak, utxo.pmmr.backend.dataFile`working
    modifies utxo.pmmr.backend.dataFile.sizeFile`buffer, utxo.pmmr.backend.dataFile.sizeFile`bufferStartPos
    modifies utxo.pmmr.backend.dataFile.sizeFile`bufferStartPosBak, utxo.pmmr.backend.dataFile.sizeFile`working
    ensures utxo.SavedHolds()
    ensures ok <==> forall k :: ChainTree.Common(current, chain) <= k < |chain| ==> Follows(bodies, chain, k)
    ensures ok ==> utxo.Valid() && utxo.blocks == BlocksOf(bodies, chain)
  {
    hide OutputSet.Valid, OutputSet.SavedHolds, OutputSet.Rewindable, BlocksOf, Follows, Writable, Spendable, UnspentAt;
    hide Concat, Delimits, Positions, Linked, NextBlock, ChainTree.Common;
    var fork := ChainTree.Common(current, chain);
    HasAll(utxo.pmmr.backend.dataFile.reader, bodies, chain);
    AtFork(bodies, current, chain, fork);
    utxo.RewindTo(fork);
    StateIsLinked(utxo);
    for k := fork to |chain|
      invariant utxo.Valid() && utxo.SavedHolds() && utxo.blocks == BlocksOf(bodies, chain[..k])
      invariant forall j :: fork <= j < k ==> Follows(bodies, chain, j)
    {
      ghost var before := utxo.blocks;
      NextIsWritable(utxo, bodies, chain, k);
      var body := bodies[chain[k]];
      var applied := utxo.ApplyBlock(body.outputs, body.inputs);
      FollowsAt(bodies, chain, k);
      if !applied {
        return false;
      }
      StateIsLinked(utxo);
      AppliedIsNext(before, Block(utxo.pmmr.lastPos, body.outputs, Positions(body.inputs)), body);
      HistoryStep(bodies, chain, k);
    }
    assert chain[..|chain|] == chain;
    ok := true;
  }
}
