/** The pool of blocks whose parent is not known yet. */
module Orphans {
  import opened Options
  import opened ChainTree
  import opened OrphanIndex

  class OrphanBlockPool {
    /** The height of a block is fixed by its hash. */
    ghost const heightOf: Hash -> nat
    var orphans: map<Hash, Orphan>
    var heightIdx: map<nat, seq<Hash>>
    var evicted: nat
    ghost var inserted: nat
    ghost var handedOut: nat

    ghost predicate Valid()
      reads this
    {
      && (forall h :: h in orphans ==> orphans[h].hash == h && orphans[h].height == heightOf(h))
      && Indexed(orphans, heightIdx)
      && IndexedRight(heightOf, heightIdx)
      && |orphans| <= 200
      && |orphans| + evicted + handedOut == inserted
    }

    constructor (ghost heights: Hash -> nat)
      ensures Valid() && orphans == map[] && evicted == 0 && inserted == 0 && handedOut == 0 && heightOf == heights
    {
      heightOf := heights;
      orphans, heightIdx, evicted := map[], map[], 0;
      inserted, handedOut := 0, 0;
    }

    /**
     Adds an orphan. When that makes too many, the old ones go first, and then whole heights from
     the top, one at least and no more than needed.
     */
    method Add(orphan: Orphan, now: int)
      requires Valid() && orphan.height == heightOf(orphan.hash)
      modifies this
      ensures Valid()
      ensures inserted == old(inserted) + (if orphan.hash in old(orphans) then 0 else 1)
      ensures handedOut == old(handedOut)
      ensures var all := old(orphans)[orphan.hash := orphan];
              if |all| <= 200 then orphans == all
              else exists cut :: Trimmed(all, now, old(heightIdx).Keys + {orphan.height}, cut, orphans)
      ensures |old(orphans)[orphan.hash := orphan]| > 200 ==>
                && (forall h :: h in orphans ==> now - orphans[h].added < 300)
                && AllUsed(heightIdx, orphans)
    {
      hide Young, Indexed, IndexedRight, Trimmed, Retained, AllUsed;
      var all := orphans[orphan.hash := orphan];
      var hashes := if orphan.height in heightIdx then heightIdx[orphan.height] else [];
      var idx := heightIdx[orphan.height := hashes + [orphan.hash]];
      IndexMore(heightOf, orphans, heightIdx, orphan, idx);
      CountOne(orphans, orphan);
      if orphan.hash !in orphans { inserted := inserted + 1; }
      heightIdx, orphans := idx, all;
      if |orphans| > MAX_ORPHAN_SIZE {
        var oldLen := |orphans|;
        orphans := Retained(orphans, now);
        assert orphan.hash in all;
        ghost var cut := TrimHeights(all, now);
        TrimmedIsPart(all, now, idx.Keys, cut, orphans);
        AllYoung(all, now, idx.Keys, cut, orphans);
        CleanIndex(heightOf, orphans, heightIdx);
        CleanedIsUsed(heightIdx, orphans);
        heightIdx := Cleaned(heightIdx, orphans);
        evicted := evicted + (oldLen - |orphans|);
      }
    }

    /** Removes whole heights, greatest first, until there is room. */
    method TrimHeights(ghost all: map<Hash, Orphan>, now: int) returns (ghost cut: nat)
      requires orphans == Retained(all, now) && exists h :: h in all
      requires Indexed(all, heightIdx) && IndexedRight(heightOf, heightIdx)
      requires forall h :: h in all ==> all[h].height == heightOf(h)
      modifies this`orphans, this`heightIdx
      ensures Trimmed(all, now, old(heightIdx).Keys, cut, orphans)
      ensures Indexed(orphans, heightIdx) && IndexedRight(heightOf, heightIdx)
    {
      hide Young, Indexed, IndexedRight, Retained, Dropped, YoungAt, YoungBelow;
      ghost var idx := heightIdx;
      var heights := heightIdx.Keys;
      SomeHeight(all, idx);
      AllAt(all, now, idx);
      assert heightIdx == Restrict(idx, heights);
      while true
        invariant heights <= idx.Keys && heights != {} && heightIdx == Restrict(idx, heights)
        invariant orphans == YoungAt(all, now, heights)
        invariant forall k, c :: k in heights && c in idx && c !in heights ==> k < c
        invariant forall c :: c in idx && c !in heights ==> |YoungBelow(all, now, c)| >= MAX_ORPHAN_SIZE
        decreases heights
      {
        var h := Greatest(heights);
        DropHeight(heightOf, all, now, idx, heights, h);
        orphans := Dropped(orphans, heightIdx[h]);
        heightIdx := heightIdx - {h};
        heights := heights - {h};
        cut := h;
        AtIsBelow(all, now, idx, heights, h);
        if |orphans| < MAX_ORPHAN_SIZE {
          break;
        }
        SomeLeft(all, now, heights);
      }
      IndexPart(heightOf, all, now, idx, heights);
    }

    /** Hands out every orphan held at a height. */
    method RemoveByHeight(height: nat) returns (removed: Option<seq<Orphan>>)
      requires Valid()
      modifies this
      ensures Valid()
      ensures orphans == NotAt(old(orphans), height)
      ensures removed.None? ==> orphans == old(orphans)
      ensures removed.Some? ==>
                && |removed.value| == |old(orphans)| - |orphans|
                && (forall o :: o in removed.value <==> Holds(old(orphans), o) && o.height == height)
                && Once(removed.value)
      ensures inserted == old(inserted) && evicted == old(evicted)
      ensures removed.Some? <==> height in old(heightIdx)
      ensures heightIdx == old(heightIdx) - {height}
    {
      hide Indexed, IndexedRight, NotAt, Dropped, Once;
      if height !in heightIdx {
        NoneAt(orphans, heightIdx, height);
        return None;
      }
      var hs := heightIdx[height];
      var out, left := TakeAll(orphans, hs);
      DroppedIsNotAt(heightOf, orphans, heightIdx, height);
      heightIdx := heightIdx - {height};
      orphans := left;
      handedOut := handedOut + |out|;
      removed := Some(out);
    }
  }

  /** From `height` up, `after` holds nothing that `before` did not. */
  ghost predicate ShrinksFrom(before: map<Hash, Orphan>, after: map<Hash, Orphan>, height: nat) {
    forall h :: h in after && after[h].height >= height ==> h in before && before[h] == after[h]
  }

  ghost predicate AcceptedAt(accepted: seq<Orphan>, height: nat) {
    exists o :: o in accepted && o.height == height
  }

  lemma MoreAccepted(accepted: seq<Orphan>, now: seq<Orphan>, low: nat, height: nat)
    requires now != [] && now[0].height == height
    requires forall k :: low <= k < height ==> AcceptedAt(accepted, k)
    ensures forall k :: low <= k <= height ==> AcceptedAt(accepted + now, k)
  {
    forall k | low <= k <= height ensures AcceptedAt(accepted + now, k) {
      if k < height {
        assert AcceptedAt(accepted, k);
        var o :| o in accepted && o.height == k;
        assert o in accepted + now;
      } else {
        assert now[0] in accepted + now;
      }
    }
  }

  lemma MeasureFalls(before: map<Hash, Orphan>, after: map<Hash, Orphan>, height: nat, o: Orphan)
    requires ShrinksFrom(NotAt(before, height), after, height + 1)
    requires Holds(before, o) && o.height == height
    ensures HeldFrom(after, height + 1) < HeldFrom(before, height)
  {
    forall h | h in HeldFrom(after, height + 1) ensures h in HeldFrom(before, height) && h != o.hash {
      assert h in NotAt(before, height);
    }
    assert o.hash in HeldFrom(before, height);
  }
}
