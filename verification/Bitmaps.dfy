/** Bitmaps of positions, as sets: the greatest element, ascending iteration and rank. */
module Bitmaps {
  import opened Collections
  import opened Mmr

  ghost predicate Ascends(v: seq<Pos>) {
    forall i, j :: 0 <= i < j < |v| ==> v[i] < v[j]
  }

  /** The greatest element, as a bitmap's `maximum` gives it. */
  function Maximum(s: set<Pos>): (m: Pos)
    requires s != {}
    ensures m in s && forall q :: q in s ==> q <= m
  {
    GreatestExists(s);
    var m :| m in s && forall q :: q in s ==> q <= m;
    m
  }

  /** An upper bound on twice every element. */
  function Bound(s: set<Pos>): (b: nat)
    ensures forall q :: q in s ==> 2 * q <= b
  {
    if s == {} then 0
    else
      var m := Maximum(s);
      2 * m
  }

  /** The elements in the order in which a bitmap is iterated. */
  ghost function Ascending(s: set<Pos>): seq<Pos>
    decreases |s|
  {
    if s == {} then []
    else
      var m := Maximum(s);
      Ascending(s - {m}) + [m]
  }

  lemma {:induction false} AscendingLists(s: set<Pos>)
    ensures Ascends(Ascending(s))
    ensures forall p :: p in Ascending(s) <==> p in s
    decreases |s|
  {
    if s != {} {
      var m := Maximum(s);
      var rest := s - {m};
      AscendingLists(rest);
      var v := Ascending(rest);
      forall i, j | 0 <= i < j < |v + [m]| ensures (v + [m])[i] < (v + [m])[j] {
        assert v[i] in v;
      }
    }
  }

  /** There is only one ascending list of a set. */
  lemma {:induction false} AscendingUnique(v: seq<Pos>, s: set<Pos>)
    requires Ascends(v) && forall p :: p in v <==> p in s
    ensures v == Ascending(s)
    decreases |s|
  {
    if v == [] {
      assert s == {};
    } else {
      var n := |v| - 1;
      var head, m := v[..n], v[n];
      assert v == head + [m];
      LastIsMaximum(head, m, s);
      AscendingUnique(head, s - {m});
    }
  }

  lemma LastIsMaximum(head: seq<Pos>, m: Pos, s: set<Pos>)
    requires Ascends(head + [m]) && forall p :: p in head + [m] <==> p in s
    ensures m in s && Maximum(s) == m
    ensures Ascends(head) && forall p :: p in head <==> p in s && p != m
  {
    var v := head + [m];
    assert forall j :: 0 <= j < |head| ==> head[j] == v[j] && v[j] < v[|head|];
    assert m in v;
    assert Maximum(s) in v;
    forall p ensures p in head <==> p in s && p != m {
      assert p in v <==> p in head || p == m;
    }
  }

  method Iterate(s: set<Pos>) returns (v: seq<Pos>)
    ensures v == Ascending(s)
  {
    v := [];
    var rest := s;
    while rest != {}
      invariant Ascending(rest) + v == Ascending(s)
      decreases |rest|
    {
      var m := Maximum(rest);
      ghost var before := Ascending(rest - {m});
      assert (before + [m]) + v == before + ([m] + v);
      v := [m] + v;
      rest := rest - {m};
    }
  }

  /** The number of elements up to `pos`. */
  function Rank(s: set<Pos>, pos: nat): nat {
    |set x | x in s && x <= pos|
  }

  lemma RankStep(s: set<Pos>, pos: nat)
    requires s != {}
    ensures Rank(s, pos) == Rank(s - {Maximum(s)}, pos) + if Maximum(s) <= pos then 1 else 0
  {
    var m := Maximum(s);
    var upTo := set x | x in s && x <= pos;
    var rest := set x | x in s - {m} && x <= pos;
    assert upTo == if m <= pos then rest + {m} else rest;
  }

  /** The rank of `pos` splits the ascending list into what is at most `pos` and what is beyond. */
  lemma {:induction false} RankSplits(s: set<Pos>, pos: nat)
    ensures Rank(s, pos) <= |Ascending(s)|
    ensures forall i :: 0 <= i < |Ascending(s)| ==> (Ascending(s)[i] <= pos <==> i < Rank(s, pos))
    decreases |s|
  {
    hide Rank;
    if s == {} {
      RankEmpty(pos);
    } else {
      var m := Maximum(s);
      RankStep(s, pos);
      RankSplits(s - {m}, pos);
      if m <= pos { RankAll(s - {m}, pos); }
    }
  }

  lemma RankEmpty(pos: nat)
    ensures Rank({}, pos) == 0
  {
    var none: set<Pos> := {};
    assert (set x | x in none && x <= pos) == {};
  }

  lemma {:induction false} RankAll(s: set<Pos>, pos: nat)
    requires forall q :: q in s ==> q <= pos
    ensures Rank(s, pos) == |Ascending(s)|
    decreases |s|
  {
    hide Rank;
    if s == {} {
      RankEmpty(pos);
    } else {
      RankStep(s, pos);
      RankAll(s - {Maximum(s)}, pos);
    }
  }
}
