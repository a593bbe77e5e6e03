/** The maps of the orphan pool: what is held, and the index from heights to hashes. */
module OrphanIndex {
  import opened ChainTree
  import opened Collections

  datatype Orphan = Orphan(hash: Hash, height: nat, added: int)

  const MAX_ORPHAN_SIZE: nat := 200
  const MAX_ORPHAN_AGE_SECS := 300

  predicate Young(o: Orphan, now: int) {
    now - o.added < MAX_ORPHAN_AGE_SECS
  }

  /** The young orphans below a height. */
  function YoungBelow(orphans: map<Hash, Orphan>, now: int, cut: nat): map<Hash, Orphan> {
    map h | h in orphans && now - orphans[h].added < 300 && orphans[h].height < cut :: orphans[h]
  }

  /** The held orphans from a height on. */
  function HeldFrom(orphans: map<Hash, Orphan>, height: nat): set<Hash> {
    set h | h in orphans && orphans[h].height >= height
  }

  lemma SmallerMap(small: map<Hash, Orphan>, large: map<Hash, Orphan>)
    requires forall h :: h in small ==> h in large
    ensures |small| <= |large|
  {
    forall h | h in small.Keys ensures h in large.Keys { assert h in small; }
    var rest := large.Keys - small.Keys;
    assert large.Keys == small.Keys + rest;
    assert |large.Keys| == |small.Keys| + |rest|;
    assert |small.Keys| == |small| && |large.Keys| == |large|;
  }

  method Greatest(heights: set<nat>) returns (h: nat)
    requires heights != {}
    ensures h in heights && forall x :: x in heights ==> x <= h
  {
    GreatestExists(heights);
    h :| h in heights && forall x :: x in heights ==> x <= h;
  }

  predicate Holds(orphans: map<Hash, Orphan>, o: Orphan) {
    o.hash in orphans && orphans[o.hash] == o
  }

  /** No hash comes twice. */
  ghost predicate Once(list: seq<Orphan>) {
    forall i, j :: 0 <= i < j < |list| ==> list[i].hash != list[j].hash
  }

  /** Takes the listed hashes out of the map, returning what was there. */
  method TakeAll(orphans: map<Hash, Orphan>, hs: seq<Hash>) returns (out: seq<Orphan>, left: map<Hash, Orphan>)
    requires forall h :: h in orphans ==> orphans[h].hash == h
    ensures left == Dropped(orphans, hs)
    ensures |out| == |orphans| - |left|
    ensures forall o :: o in out <==> Holds(orphans, o) && o.hash in hs
    ensures Once(out)
  {
    out, left := [], orphans;
    for i := 0 to |hs|
      invariant left == Dropped(orphans, hs[..i])
      invariant |out| == |orphans| - |left|
      invariant forall o :: o in out <==> Holds(orphans, o) && o.hash in hs[..i]
      invariant Once(out) && forall j :: 0 <= j < |out| ==> out[j].hash !in left
    {
      var h := hs[i];
      assert hs[..i + 1] == hs[..i] + [h];
      if h in left {
        out := out + [left[h]];
        RemoveOne(left, h);
        left := left - {h};
      }
    }
    assert hs[..|hs|] == hs;
  }

  /** Every held orphan is found under its height. */
  ghost predicate Indexed(orphans: map<Hash, Orphan>, heightIdx: map<nat, seq<Hash>>) {
    forall h :: h in orphans ==> orphans[h].height in heightIdx && h in heightIdx[orphans[h].height]
  }

  /** The hashes under a height belong to blocks of that height. */
  ghost predicate IndexedRight(heightOf: Hash -> nat, heightIdx: map<nat, seq<Hash>>) {
    forall k, h :: k in heightIdx && h in heightIdx[k] ==> heightOf(h) == k
  }

  /**
   What an overfull pool keeps: the young ones below one of the indexed heights, fewer than the
   limit, where any higher cut would have kept too many.
   */
  ghost predicate Trimmed(all: map<Hash, Orphan>, now: int, heights: set<nat>, cut: nat, kept: map<Hash, Orphan>) {
    && cut in heights
    && kept == YoungBelow(all, now, cut)
    && |kept| < 200
    && forall c :: c in heights && c > cut ==> |YoungBelow(all, now, c)| >= 200
  }

  function Retained(orphans: map<Hash, Orphan>, now: int): map<Hash, Orphan> {
    map h | h in orphans && Young(orphans[h], now) :: orphans[h]
  }

  function Dropped(orphans: map<Hash, Orphan>, hs: seq<Hash>): map<Hash, Orphan> {
    map h | h in orphans && h !in hs :: orphans[h]
  }

  ghost function NotAt(orphans: map<Hash, Orphan>, height: nat): map<Hash, Orphan> {
    map h | h in orphans && orphans[h].height != height :: orphans[h]
  }

  ghost function YoungAt(orphans: map<Hash, Orphan>, now: int, heights: set<nat>): map<Hash, Orphan> {
    map h | h in orphans && now - orphans[h].added < 300 && orphans[h].height in heights :: orphans[h]
  }

  /** The index without the heights none of whose blocks is held. */
  function Cleaned(heightIdx: map<nat, seq<Hash>>, orphans: map<Hash, Orphan>): map<nat, seq<Hash>> {
    map k | k in heightIdx && (exists i | 0 <= i < |heightIdx[k]| :: heightIdx[k][i] in orphans) :: heightIdx[k]
  }

  ghost function Restrict(idx: map<nat, seq<Hash>>, heights: set<nat>): map<nat, seq<Hash>> {
    map k | k in idx && k in heights :: idx[k]
  }

  lemma IndexMore(heightOf: Hash -> nat, orphans: map<Hash, Orphan>, idx: map<nat, seq<Hash>>, o: Orphan,
      more: map<nat, seq<Hash>>)
    requires Indexed(orphans, idx) && IndexedRight(heightOf, idx) && o.height == heightOf(o.hash)
    requires more == idx[o.height := (if o.height in idx then idx[o.height] else []) + [o.hash]]
    ensures Indexed(orphans[o.hash := o], more) && IndexedRight(heightOf, more)
    ensures more.Keys == idx.Keys + {o.height}
  {
    var hashes := if o.height in idx then idx[o.height] else [];
    assert forall h :: h in hashes + [o.hash] <==> h in hashes || h == o.hash;
  }

  lemma TrimmedIsPart(all: map<Hash, Orphan>, now: int, heights: set<nat>, cut: nat, kept: map<Hash, Orphan>)
    requires Trimmed(all, now, heights, cut, kept)
    ensures |kept| <= |all| && |kept| < 200
    ensures forall h :: h in kept ==> h in all && kept[h] == all[h]
  {
    SmallerMap(kept, all);
  }

  /** What is kept is less than five minutes old. */
  lemma AllYoung(all: map<Hash, Orphan>, now: int, heights: set<nat>, cut: nat, kept: map<Hash, Orphan>)
    requires Trimmed(all, now, heights, cut, kept)
    ensures forall h :: h in kept ==> now - kept[h].added < 300
  {
  }

  /** Under every height of the index some hash is that of a held orphan. */
  ghost predicate AllUsed(idx: map<nat, seq<Hash>>, orphans: map<Hash, Orphan>) {
    forall k :: k in idx ==> exists i :: 0 <= i < |idx[k]| && idx[k][i] in orphans
  }

  lemma CleanedIsUsed(idx: map<nat, seq<Hash>>, orphans: map<Hash, Orphan>)
    ensures AllUsed(Cleaned(idx, orphans), orphans)
  {
  }

  lemma CleanIndex(heightOf: Hash -> nat, orphans: map<Hash, Orphan>, idx: map<nat, seq<Hash>>)
    requires Indexed(orphans, idx) && IndexedRight(heightOf, idx)
    ensures Indexed(orphans, Cleaned(idx, orphans)) && IndexedRight(heightOf, Cleaned(idx, orphans))
  {
    forall h | h in orphans ensures orphans[h].height in Cleaned(idx, orphans) {
      var hs := idx[orphans[h].height];
      var i :| 0 <= i < |hs| && hs[i] == h;
    }
  }

  lemma SomeHeight(all: map<Hash, Orphan>, idx: map<nat, seq<Hash>>)
    requires (exists h :: h in all) && Indexed(all, idx)
    ensures idx.Keys != {}
  {
    var h :| h in all;
    assert all[h].height in idx.Keys;
  }

  lemma AllAt(all: map<Hash, Orphan>, now: int, idx: map<nat, seq<Hash>>)
    requires Indexed(all, idx)
    ensures Retained(all, now) == YoungAt(all, now, idx.Keys)
    ensures idx == Restrict(idx, idx.Keys)
  {
    assert forall h :: h in Retained(all, now) <==> h in YoungAt(all, now, idx.Keys);
    assert forall k :: k in idx <==> k in Restrict(idx, idx.Keys);
  }

  /** Removing the hashes listed under a height removes the orphans of that height. */
  lemma DropHeight(heightOf: Hash -> nat, all: map<Hash, Orphan>, now: int, idx: map<nat, seq<Hash>>,
      heights: set<nat>, h: nat)
    requires Indexed(all, idx) && IndexedRight(heightOf, idx) && h in idx && h in heights
    requires forall x :: x in all ==> all[x].height == heightOf(x)
    ensures Dropped(YoungAt(all, now, heights), idx[h]) == YoungAt(all, now, heights - {h})
    ensures Restrict(idx, heights) - {h} == Restrict(idx, heights - {h})
  {
    forall x ensures x in Dropped(YoungAt(all, now, heights), idx[h]) <==> x in YoungAt(all, now, heights - {h}) {
      if x in all { assert x in idx[h] <==> all[x].height == h; }
    }
    assert forall k :: k in Restrict(idx, heights) - {h} <==> k in Restrict(idx, heights - {h});
  }

  lemma AtIsBelow(all: map<Hash, Orphan>, now: int, idx: map<nat, seq<Hash>>, heights: set<nat>, h: nat)
    requires Indexed(all, idx)
    requires forall k :: k in heights ==> k < h
    requires forall k :: k in idx && k !in heights ==> k >= h
    ensures YoungAt(all, now, heights) == YoungBelow(all, now, h)
  {
    assert forall x :: x in YoungAt(all, now, heights) <==> x in YoungBelow(all, now, h);
  }

  lemma NoHeights(all: map<Hash, Orphan>, now: int)
    ensures YoungAt(all, now, {}) == map[]
  {
  }

  lemma SomeLeft(all: map<Hash, Orphan>, now: int, heights: set<nat>)
    requires |YoungAt(all, now, heights)| > 0
    ensures heights != {}
  {
    if heights == {} { NoHeights(all, now); }
  }

  lemma IndexPart(heightOf: Hash -> nat, all: map<Hash, Orphan>, now: int, idx: map<nat, seq<Hash>>, heights: set<nat>)
    requires Indexed(all, idx) && IndexedRight(heightOf, idx)
    ensures Indexed(YoungAt(all, now, heights), Restrict(idx, heights))
    ensures IndexedRight(heightOf, Restrict(idx, heights))
  {
  }

  lemma NoneAt(orphans: map<Hash, Orphan>, idx: map<nat, seq<Hash>>, height: nat)
    requires Indexed(orphans, idx) && height !in idx
    ensures NotAt(orphans, height) == orphans
  {
    assert forall h :: h in NotAt(orphans, height) <==> h in orphans;
  }

  lemma DroppedIsNotAt(heightOf: Hash -> nat, orphans: map<Hash, Orphan>, idx: map<nat, seq<Hash>>, height: nat)
    requires Indexed(orphans, idx) && IndexedRight(heightOf, idx) && height in idx
    requires forall h :: h in orphans ==> orphans[h].height == heightOf(h) && orphans[h].hash == h
    ensures Dropped(orphans, idx[height]) == NotAt(orphans, height)
    ensures forall h :: h in orphans ==> (h in idx[height] <==> orphans[h].height == height)
    ensures Indexed(NotAt(orphans, height), idx - {height}) && IndexedRight(heightOf, idx - {height})
    ensures forall h :: h in NotAt(orphans, height) ==> h in orphans && NotAt(orphans, height)[h] == orphans[h]
  {
    assert forall h :: h in orphans ==> (h in idx[height] <==> orphans[h].height == height);
  }

  lemma RemoveOne(orphans: map<Hash, Orphan>, h: Hash)
    requires h in orphans
    ensures |orphans - {h}| == |orphans| - 1
  {
    assert (orphans - {h}).Keys == orphans.Keys - {h};
    assert |(orphans - {h}).Keys| == |orphans - {h}| && |orphans.Keys| == |orphans|;
  }

  lemma CountOne(orphans: map<Hash, Orphan>, o: Orphan)
    ensures |orphans[o.hash := o]| == |orphans| + if o.hash in orphans then 0 else 1
  {
    var more := orphans[o.hash := o];
    assert more.Keys == orphans.Keys + {o.hash};
    assert |more.Keys| == |more| && |orphans.Keys| == |orphans|;
  }
}
