/** Greatest elements, increasing lists, reversal. */
module Collections {

  /** A finite set of numbers has a greatest one. */
  lemma {:induction false} GreatestExists(s: set<nat>)
    requires s != {}
    ensures exists m :: m in s && forall q :: q in s ==> q <= m
    decreases |s|
  {
    var x :| x in s;
    var rest := s - {x};
    assert forall q :: q in s ==> q == x || q in rest;
    if rest != {} {
      GreatestExists(rest);
      var m :| m in rest && forall q :: q in rest ==> q <= m;
      var top := if x > m then x else m;
      assert top in s && forall q :: q in s ==> q <= top;
    }
  }

  ghost predicate Increasing(v: seq<nat>) {
    forall i, j :: 0 <= i < j < |v| ==> v[i] < v[j]
  }

  function Reverse<T>(s: seq<T>): (r: seq<T>)
    ensures |r| == |s| && forall i :: 0 <= i < |s| ==> r[i] == s[|s| - 1 - i]
  {
    seq(|s|, i requires 0 <= i < |s| => s[|s| - 1 - i])
  }
}
