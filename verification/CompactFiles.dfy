/**
 The contents of a compacted file as a function of what was ever appended (one entry for each
 counted position) and of the pruned leaves, and how the file operations act on it.
 */
module CompactFiles {
  import opened Mmr
  import opened Pruning
  import opened Ranks
  import opened Chunks

  /** The file after `n` positions: the entries of the kept positions, in order. */
  ghost function Stored<T>(u: Entries, leaves: set<Pos>, n: nat, entries: seq<T>): seq<T>
    requires CountTo(u, n) <= |entries|
  {
    if n == 0 then []
    else
      CountStep(u, n);
      Stored(u, leaves, n - 1, entries) +
      if Kept(u, leaves, n) then [entries[CountTo(u, n) - 1]] else []
  }

  lemma {:induction false} StoredLength<T>(u: Entries, leaves: set<Pos>, n: nat, entries: seq<T>)
    requires CountTo(u, n) <= |entries|
    ensures |Stored(u, leaves, n, entries)| == KeptTo(u, leaves, n)
  {
    hide Kept, CountTo;
    if n > 0 {
      CountStep(u, n);
      StoredLength(u, leaves, n - 1, entries);
    }
  }

  /** The rank of a kept position is where its entry stands. */
  lemma {:induction false} StoredAt<T>(u: Entries, leaves: set<Pos>, n: nat, entries: seq<T>, p: Pos)
    requires CountTo(u, n) <= |entries|
    requires p <= n && Kept(u, leaves, p)
    ensures 0 < KeptTo(u, leaves, p) <= |Stored(u, leaves, n, entries)|
    ensures 0 < CountTo(u, p) <= |entries|
    ensures Stored(u, leaves, n, entries)[KeptTo(u, leaves, p) - 1] == entries[CountTo(u, p) - 1]
    decreases n
  {
    hide Kept, CountTo;
    CountStep(u, n);
    if p < n {
      StoredAt(u, leaves, n - 1, entries, p);
    } else {
      StoredLength(u, leaves, n - 1, entries);
      KeptCounted(u, leaves, p);
    }
  }

  lemma KeptCounted(u: Entries, leaves: set<Pos>, p: Pos)
    requires Kept(u, leaves, p)
    ensures Counted(u, p)
  {
  }

  lemma {:induction false} CountMonotone(u: Entries, m: nat, n: nat)
    requires m <= n
    ensures CountTo(u, m) <= CountTo(u, n)
    decreases n
  {
    hide CountTo;
    if m < n {
      CountStep(u, n);
      CountMonotone(u, m, n - 1);
    }
  }

  /** Cutting the file at the rank of a size leaves the file of that size. */
  lemma {:induction false} StoredPrefix<T>(u: Entries, leaves: set<Pos>, m: nat, n: nat, entries: seq<T>)
    requires m <= n && CountTo(u, n) <= |entries|
    ensures CountTo(u, m) <= |entries|
    ensures KeptTo(u, leaves, m) <= |Stored(u, leaves, n, entries)|
    ensures Stored(u, leaves, n, entries)[..KeptTo(u, leaves, m)] == Stored(u, leaves, m, entries)
    decreases n
  {
    hide Kept, CountTo;
    if m < n {
      CountStep(u, n);
      StoredPrefix(u, leaves, m, n - 1, entries);
      StoredLength(u, leaves, n - 1, entries);
      KeptToMonotone(u, leaves, m, n - 1);
    } else {
      StoredLength(u, leaves, n, entries);
    }
  }

  /** Only the entries that are counted matter. */
  lemma {:induction false} StoredAgrees<T>(u: Entries, leaves: set<Pos>, n: nat, a: seq<T>, b: seq<T>)
    requires CountTo(u, n) <= |a| && CountTo(u, n) <= |b|
    requires a[..CountTo(u, n)] == b[..CountTo(u, n)]
    ensures Stored(u, leaves, n, a) == Stored(u, leaves, n, b)
  {
    hide Kept, CountTo;
    if n > 0 {
      CountStep(u, n);
      var c := CountTo(u, n - 1);
      assert a[..c] == a[..CountTo(u, n)][..c];
      assert b[..c] == b[..CountTo(u, n)][..c];
      StoredAgrees(u, leaves, n - 1, a, b);
      if Kept(u, leaves, n) {
        KeptCounted(u, leaves, n);
        assert a[..CountTo(u, n)][CountTo(u, n) - 1] == a[CountTo(u, n) - 1];
        assert b[..CountTo(u, n)][CountTo(u, n) - 1] == b[CountTo(u, n) - 1];
      }
    }
  }

  /** Positions past everything pruned are appended as they are. */
  lemma {:induction false} StoredExtends<T>(u: Entries, leaves: set<Pos>, m: nat, n: nat, entries: seq<T>)
    requires m <= n && CountTo(u, n) <= |entries|
    requires forall q: Pos :: m < q <= n ==> !Compacted(leaves, q)
    ensures CountTo(u, m) <= CountTo(u, n)
    ensures Stored(u, leaves, n, entries) ==
            Stored(u, leaves, m, entries) + entries[CountTo(u, m)..CountTo(u, n)]
    decreases n
  {
    hide Compacted, CountTo, Counted;
    if m < n {
      CountStep(u, n);
      StoredExtends(u, leaves, m, n - 1, entries);
    }
  }

  /** The file indices of the entries to drop when the pruned leaves grow from `before` to `after`. */
  ghost function DropIndices(u: Entries, before: set<Pos>, gone: set<Pos>): set<nat> {
    set p | p in gone && Kept(u, before, p) && KeptTo(u, before, p) > 0 :: (KeptTo(u, before, p) - 1) as nat
  }

  /** `gone` holds the positions compacted under `after` but not under `before`. */
  ghost predicate NewlyCompacted(before: set<Pos>, after: set<Pos>, gone: set<Pos>) {
    forall p: Pos :: p in gone <==> Compacted(after, p) && !Compacted(before, p)
  }

  /**
   Dropping the entries of the newly compacted positions turns the file for the old prune
   list into the file for the new one.
   */
  lemma {:induction false} DropIsCompaction<T>(
      u: Entries, before: set<Pos>, after: set<Pos>, gone: set<Pos>, n: nat, entries: seq<T>)
    requires CountTo(u, n) <= |entries|
    requires before <= after && NewlyCompacted(before, after, gone)
    ensures Without(Stored(u, before, n, entries), DropIndices(u, before, gone)) == Stored(u, after, n, entries)
    decreases n
  {
    hide Compacted, CountTo, KeptTo, DropIndices;
    if n > 0 {
      CountStep(u, n);
      DropIsCompaction(u, before, after, gone, n - 1, entries);
      var old' := Stored(u, before, n - 1, entries);
      StoredLength(u, before, n - 1, entries);
      CompactedMonotone(before, after, n);
      if Kept(u, before, n) {
        KeptStep(u, before, n);
        DropIndexUnique(u, before, gone, n);
        var e := entries[CountTo(u, n) - 1];
        assert (old' + [e])[..|old'|] == old';
      } else {
        assert old' + [] == old';
        assert Stored(u, after, n - 1, entries) + [] == Stored(u, after, n - 1, entries);
      }
    }
  }

  lemma CompactedMonotone(before: set<Pos>, after: set<Pos>, p: Pos)
    requires before <= after
    ensures Compacted(before, p) ==> Compacted(after, p)
  {
    if Compacted(before, p) { FullMonotone(before, after, Parent(p)); }
  }

  lemma KeptStep(u: Entries, leaves: set<Pos>, n: Pos)
    requires Kept(u, leaves, n)
    ensures KeptTo(u, leaves, n) == KeptTo(u, leaves, n - 1) + 1
  {
  }

  lemma DropIndexUnique(u: Entries, before: set<Pos>, gone: set<Pos>, p: Pos)
    requires Kept(u, before, p)
    ensures KeptTo(u, before, p) > 0
    ensures (KeptTo(u, before, p) - 1) in DropIndices(u, before, gone) <==> p in gone
  {
    hide Kept;
    KeptStep(u, before, p);
    forall q | q in gone && Kept(u, before, q) && KeptTo(u, before, q) == KeptTo(u, before, p) ensures q == p {
      if q < p { KeptToMonotone(u, before, q, p); }
      if p < q { KeptToMonotone(u, before, p, q); }
    }
  }
}
