/** The leaf set: the positions of the leaves that have not been removed. */
module LeafSets {
  import opened Mmr
  import opened Navigation
  import opened PruneLists

  /** A bitmap without the values from `lo` to `hi`, both included. */
  function RemoveRangeClosed(s: set<Pos>, lo: nat, hi: nat): set<Pos> {
    set x | x in s && !(lo <= x <= hi)
  }

  /** A bitmap with every value from `lo` up to but not including `hi` inverted. */
  function Flip(s: set<Pos>, lo: Pos, hi: Pos): set<Pos> {
    (set x | x in s && !(lo <= x < hi)) + (set x: Pos | lo <= x < hi && x !in s)
  }

  /** The leaf set of a rewound range: what was added later is gone, what was removed is back. */
  function Rewound(bitmap: set<Pos>, cutoff: nat, rewindRmPos: set<Pos>): set<Pos> {
    (set x | x in bitmap && x <= cutoff) + rewindRmPos
  }

  /** `after` is `before` with the leaves up to the cutoff that a rewind to it would not put back. */
  ghost predicate PrunedAt(before: set<Pos>, after: set<Pos>, bitmap: set<Pos>, cutoff: nat, rewindRmPos: set<Pos>) {
    forall x: Pos :: x in after <==>
      x in before || (x <= cutoff && IsLeaf(x) && x !in Rewound(bitmap, cutoff, rewindRmPos))
  }

  lemma RemoveTail(bitmap: set<Pos>, cutoff: nat)
    ensures RemoveRangeClosed(bitmap, cutoff + 1, Last(bitmap)) == set x | x in bitmap && x <= cutoff
  {
  }

  class LeafSet {
    var bitmap: set<Pos>
    var bitmapBak: set<Pos>
    /** The bitmap as last written to disk. */
    var file: set<Pos>

    constructor Open(saved: set<Pos>)
      ensures bitmap == bitmapBak == file == saved
    {
      bitmap, bitmapBak, file := saved, saved, saved;
    }

    method UnprunedPreCutoff(cutoff: nat, pruneList: PruneList) returns (leaves: set<Pos>)
      ensures forall x: Pos :: x in leaves <==> x <= cutoff && IsLeaf(x) && x !in pruneList.prunedCache
    {
      hide IsLeaf;
      leaves := {};
      for x: Pos := 1 to cutoff + 1
        invariant forall y: Pos :: y in leaves <==> y < x && IsLeaf(y) && y !in pruneList.prunedCache
      {
        var leaf := LeafTest(x);
        if leaf && !pruneList.IsPruned(x) {
          leaves := leaves + {x};
        }
      }
    }

    /** The leaves to prune: up to the cutoff, removed, not to be put back by a rewind, not pruned yet. */
    method RemovedPreCutoff(cutoff: nat, rewindRmPos: set<Pos>, pruneList: PruneList) returns (removed: set<Pos>)
      ensures forall x: Pos :: x in removed <==>
                x <= cutoff && IsLeaf(x) && x !in pruneList.prunedCache && x !in Rewound(bitmap, cutoff, rewindRmPos)
    {
      hide IsLeaf;
      RemoveTail(bitmap, cutoff);
      var kept := RemoveRangeClosed(bitmap, cutoff + 1, Last(bitmap));
      kept := kept + rewindRmPos;
      var unpruned := UnprunedPreCutoff(cutoff, pruneList);
      removed := Flip(kept, 1, cutoff + 1) * unpruned;
    }

    method Rewind(cutoff: nat, rewindRmPos: set<Pos>)
      modifies this`bitmap
      ensures bitmap == Rewound(old(bitmap), cutoff, rewindRmPos)
    {
      RemoveTail(bitmap, cutoff);
      bitmap := RemoveRangeClosed(bitmap, cutoff + 1, Last(bitmap));
      bitmap := bitmap + rewindRmPos;
    }

    method Add(pos: Pos)
      modifies this`bitmap
      ensures bitmap == old(bitmap) + {pos}
    {
      bitmap := bitmap + {pos};
    }

    method Remove(pos: Pos)
      modifies this`bitmap
      ensures bitmap == old(bitmap) - {pos}
    {
      bitmap := bitmap - {pos};
    }

    method Flush()
      modifies this`bitmapBak, this`file
      ensures file == bitmapBak == bitmap
    {
      file := bitmap;
      bitmapBak := bitmap;
    }

    method Discard()
      modifies this`bitmap
      ensures bitmap == bitmapBak
    {
      bitmap := bitmapBak;
    }
  }
}
