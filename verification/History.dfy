/**
 The history of an output set, block by block: which outputs are unspent after each block, what
 a rewind restores, and why pruning behind a horizon never touches an output that any rewind
 down to that horizon could bring back.
 */
module History {
  import opened Mmr
  import opened Navigation
  import opened Pruning
  import opened BackendState
  import opened LeafSets

  /** What the chain keeps of a block: the size of the range after it, its outputs, and the positions it spent. */
  datatype Block = Block(size: nat, outputs: seq<Bytes>, spent: set<Pos>)

  function SizeAt(blocks: seq<Block>, t: nat): nat
    requires t <= |blocks|
  {
    if t == 0 then 0 else blocks[t - 1].size
  }

  /** The leaves added when the range grows from `from` to `to`. */
  ghost function LeavesBetween(from: nat, to: nat): set<Pos> {
    set p: Pos | from < p <= to && IsLeaf(p)
  }

  /** The unspent outputs after the first `t` blocks. */
  ghost function UnspentAt(blocks: seq<Block>, t: nat): set<Pos>
    requires t <= |blocks|
  {
    if t == 0 then {}
    else UnspentAt(blocks, t - 1) + LeavesBetween(SizeAt(blocks, t - 1), SizeAt(blocks, t)) - blocks[t - 1].spent
  }

  ghost function OutputsAt(blocks: seq<Block>, t: nat): seq<Bytes>
    requires t <= |blocks|
  {
    if t == 0 then [] else OutputsAt(blocks, t - 1) + blocks[t - 1].outputs
  }

  /** Each block grows the range to a whole size by its outputs and spends outputs that were there before it. */
  ghost predicate Linked(blocks: seq<Block>) {
    forall t :: 0 < t <= |blocks| ==> BlockFits(blocks, t)
  }

  ghost predicate BlockFits(blocks: seq<Block>, t: nat)
    requires 0 < t <= |blocks|
  {
    && SizeAt(blocks, t - 1) <= SizeAt(blocks, t) && WholeSize(SizeAt(blocks, t))
    && |OutputsAt(blocks, t)| == LeafCount(SizeAt(blocks, t))
    && blocks[t - 1].spent <= UnspentAt(blocks, t - 1)
  }

  lemma {:induction false} UnspentBelow(blocks: seq<Block>, t: nat)
    requires Linked(blocks) && t <= |blocks|
    ensures forall x :: x in UnspentAt(blocks, t) ==> x <= SizeAt(blocks, t) && IsLeaf(x)
    decreases t
  {
    hide IsLeaf;
    if t > 0 {
      UnspentBelow(blocks, t - 1);
      assert BlockFits(blocks, t);
    }
  }

  /** Unspending what a block spent and dropping what it added gives back the outputs before it. */
  lemma RewindOneBlock(blocks: seq<Block>, t: nat)
    requires Linked(blocks) && 0 < t <= |blocks|
    ensures Rewound(UnspentAt(blocks, t), SizeAt(blocks, t - 1), blocks[t - 1].spent) == UnspentAt(blocks, t - 1)
  {
    hide IsLeaf;
    UnspentBelow(blocks, t - 1);
    assert BlockFits(blocks, t);
  }

  lemma {:induction false} SizesGrow(blocks: seq<Block>, k: nat, t: nat)
    requires Linked(blocks) && k <= t <= |blocks|
    ensures SizeAt(blocks, k) <= SizeAt(blocks, t)
    decreases t
  {
    hide WholeSize, LeafCount, UnspentAt, OutputsAt;
    if k < t {
      SizesGrow(blocks, k, t - 1);
      assert BlockFits(blocks, t);
    }
  }

  /** The positions spent by the blocks after the `k`-th. */
  ghost function SpentSince(blocks: seq<Block>, k: nat, t: nat): set<Pos>
    requires k <= t <= |blocks|
  {
    if k == t then {} else SpentSince(blocks, k, t - 1) + blocks[t - 1].spent
  }

  /** Below the size after block `k`, what is unspent now or spent since is what was unspent then. */
  lemma {:induction false} UnspentThen(blocks: seq<Block>, k: nat, t: nat, x: Pos)
    requires Linked(blocks) && k <= t <= |blocks| && x <= SizeAt(blocks, k)
    ensures x in UnspentAt(blocks, k) <==> x in UnspentAt(blocks, t) || x in SpentSince(blocks, k, t)
    ensures x in UnspentAt(blocks, t) ==> x in UnspentAt(blocks, k)
    decreases t
  {
    hide IsLeaf;
    if k < t {
      UnspentThen(blocks, k, t - 1, x);
      assert BlockFits(blocks, t);
      SizesGrow(blocks, k, t - 1);
    }
  }

  /** Nothing pruned is unspent after any block from the horizon on. */
  ghost predicate SafeFrom(blocks: seq<Block>, horizon: nat, pruned: set<Pos>) {
    && horizon <= |blocks|
    && UpTo(pruned, SizeAt(blocks, horizon))
    && forall t :: horizon <= t <= |blocks| ==> pruned !! UnspentAt(blocks, t)
  }

  /** The leaves that were there after block `k` and spent by then. */
  ghost function DeadAt(blocks: seq<Block>, k: nat): set<Pos>
    requires k <= |blocks|
  {
    set p: Pos | 1 <= p <= SizeAt(blocks, k) && IsLeaf(p) && p !in UnspentAt(blocks, k)
  }

  /** Pruned at block `k`: exactly the leaves spent by then. */
  lemma PrunedIsDead(blocks: seq<Block>, horizon: nat, k: nat, pruned: set<Pos>, after: set<Pos>)
    requires Linked(blocks) && SafeFrom(blocks, horizon, pruned) && LeavesOnly(pruned)
    requires horizon <= k <= |blocks|
    requires PrunedAt(pruned, after, UnspentAt(blocks, |blocks|), SizeAt(blocks, k), SpentSince(blocks, k, |blocks|))
    ensures after == DeadAt(blocks, k)
  {
    hide UnspentAt, SpentSince, IsLeaf;
    SizesGrow(blocks, horizon, k);
    forall x: Pos ensures x in after <==> x in DeadAt(blocks, k) {
      if x <= SizeAt(blocks, k) { UnspentThen(blocks, k, |blocks|, x); }
    }
  }

  /** Pruning at a later horizon what no rewind to it would bring back is safe from there on. */
  lemma PruneIsSafe(blocks: seq<Block>, horizon: nat, k: nat, pruned: set<Pos>, after: set<Pos>)
    requires Linked(blocks) && SafeFrom(blocks, horizon, pruned)
    requires horizon <= k <= |blocks|
    requires PrunedAt(pruned, after, UnspentAt(blocks, |blocks|), SizeAt(blocks, k), SpentSince(blocks, k, |blocks|))
    ensures SafeFrom(blocks, k, after)
  {
    hide UnspentAt, SpentSince, IsLeaf;
    SizesGrow(blocks, horizon, k);
    forall t | k <= t <= |blocks| ensures after !! UnspentAt(blocks, t) {
      forall x | x in after ensures x !in UnspentAt(blocks, t) {
        if x !in pruned {
          UnspentThen(blocks, k, t, x);
          UnspentThen(blocks, k, |blocks|, x);
        }
      }
    }
  }

  lemma {:induction false} PrefixAgrees(blocks: seq<Block>, n: nat, t: nat)
    requires t <= n <= |blocks|
    ensures SizeAt(blocks[..n], t) == SizeAt(blocks, t)
    ensures UnspentAt(blocks[..n], t) == UnspentAt(blocks, t)
    ensures OutputsAt(blocks[..n], t) == OutputsAt(blocks, t)
    decreases t
  {
    if t > 0 { PrefixAgrees(blocks, n, t - 1); }
  }

  lemma LinkedPrefix(blocks: seq<Block>, n: nat)
    requires Linked(blocks) && n <= |blocks|
    ensures Linked(blocks[..n])
  {
    forall t | 0 < t <= n ensures BlockFits(blocks[..n], t) {
      assert BlockFits(blocks, t);
      PrefixAgrees(blocks, n, t);
      PrefixAgrees(blocks, n, t - 1);
    }
  }

  lemma SafePrefix(blocks: seq<Block>, horizon: nat, pruned: set<Pos>, n: nat)
    requires SafeFrom(blocks, horizon, pruned) && horizon <= n <= |blocks|
    ensures SafeFrom(blocks[..n], horizon, pruned)
  {
    hide UnspentAt;
    PrefixAgrees(blocks, n, horizon);
    forall t | horizon <= t <= n ensures pruned !! UnspentAt(blocks[..n], t) {
      PrefixAgrees(blocks, n, t);
    }
  }

  lemma Extends(blocks: seq<Block>, b: Block)
    requires Linked(blocks)
    requires SizeAt(blocks, |blocks|) <= b.size && WholeSize(b.size)
    requires |OutputsAt(blocks, |blocks|) + b.outputs| == LeafCount(b.size)
    requires b.spent <= UnspentAt(blocks, |blocks|)
    ensures Linked(blocks + [b])
    ensures UnspentAt(blocks + [b], |blocks| + 1) ==
            UnspentAt(blocks, |blocks|) + LeavesBetween(SizeAt(blocks, |blocks|), b.size) - b.spent
    ensures OutputsAt(blocks + [b], |blocks| + 1) == OutputsAt(blocks, |blocks|) + b.outputs
  {
    hide WholeSize, LeafCount, LeavesBetween;
    var all, n := blocks + [b], |blocks|;
    assert all[..n] == blocks;
    PrefixAgrees(all, n, n);
    forall t | 0 < t <= n + 1 ensures BlockFits(all, t) {
      if t <= n {
        assert BlockFits(blocks, t);
        PrefixAgrees(all, n, t);
        PrefixAgrees(all, n, t - 1);
      }
    }
  }

  /** A new block adds leaves past everything pruned. */
  lemma ExtendIsSafe(blocks: seq<Block>, b: Block, horizon: nat, pruned: set<Pos>)
    requires Linked(blocks) && Linked(blocks + [b]) && SafeFrom(blocks, horizon, pruned)
    ensures SafeFrom(blocks + [b], horizon, pruned)
  {
    hide IsLeaf;
    var all, n := blocks + [b], |blocks|;
    assert all[..n] == blocks;
    PrefixAgrees(all, n, horizon);
    SizesGrow(blocks, horizon, n);
    forall t | horizon <= t <= n + 1 ensures pruned !! UnspentAt(all, t) {
      if t <= n {
        PrefixAgrees(all, n, t);
      } else {
        PrefixAgrees(all, n, n);
      }
    }
  }

  /** An unspent output is not compacted. */
  lemma UnspentIsKept(blocks: seq<Block>, horizon: nat, pruned: set<Pos>, x: Pos)
    requires Linked(blocks) && SafeFrom(blocks, horizon, pruned) && x in UnspentAt(blocks, |blocks|)
    ensures IsLeaf(x) && x <= SizeAt(blocks, |blocks|) && !Compacted(pruned, x)
  {
    UnspentBelow(blocks, |blocks|);
    FullParent(pruned, x);
    FullLeaf(pruned, x);
  }
}
