/** Removing, in place, what two sorted lists have in common. */
module CutThrough {
  import opened Options
  import opened Aggregation

  predicate Sorted(s: seq<int>) {
    forall i, j :: 0 <= i < j < |s| ==> s[i] <= s[j]
  }

  predicate HasRepeat(s: seq<int>) {
    exists i :: 0 <= i < |s| - 1 && s[i] == s[i + 1]
  }

  predicate AllOnce(m: multiset<int>) {
    forall c | c in m :: m[c] == 1
  }

  lemma Twice(s: seq<int>, i: nat)
    requires i < |s| - 1 && s[i] == s[i + 1]
    ensures !AllOnce(multiset(s))
  {
    assert s == s[..i] + [s[i], s[i + 1]] + s[i + 2..];
    assert multiset(s) == multiset(s[..i]) + multiset{s[i], s[i + 1]} + multiset(s[i + 2..]);
    assert multiset(s)[s[i]] >= 2;
  }

  lemma LastIsNew(s: seq<int>)
    requires Sorted(s) && !HasRepeat(s) && s != []
    ensures s[|s| - 1] !in s[..|s| - 1]
  {
    forall i | 0 <= i < |s| - 1 ensures s[i] < s[|s| - 1] {
      assert s[i] <= s[|s| - 2];
      assert s[|s| - 2] != s[|s| - 2 + 1];
    }
  }

  lemma {:induction false} Once(s: seq<int>, c: int)
    requires Sorted(s) && !HasRepeat(s) && c in s
    ensures multiset(s)[c] == 1
  {
    var init, last := s[..|s| - 1], s[|s| - 1];
    assert s == init + [last];
    LastIsNew(s);
    if c != last {
      assert !HasRepeat(init);
      Once(init, c);
    }
  }

  lemma RepeatMeansNotDistinct(s: seq<int>)
    requires Sorted(s)
    ensures HasRepeat(s) <==> !AllOnce(multiset(s))
  {
    hide Sorted;
    if HasRepeat(s) {
      hide AllOnce;
      var i :| 0 <= i < |s| - 1 && s[i] == s[i + 1];
      Twice(s, i);
    } else {
      forall c | c in multiset(s) ensures multiset(s)[c] == 1 {
        Once(s, c);
      }
    }
  }

  lemma Disjoint(a: multiset<int>, b: multiset<int>, cut: multiset<int>)
    requires forall x :: x in a ==> x !in b
    ensures (a + cut) * (b + cut) == cut
  {
    forall x ensures ((a + cut) * (b + cut))[x] == cut[x] {
      assert a[x] == 0 || b[x] == 0;
    }
  }

  ghost predicate Apart(s: seq<int>, t: seq<int>) {
    forall i, j :: 0 <= i < |s| && 0 <= j < |t| ==> s[i] != t[j]
  }

  ghost predicate Before(s: seq<int>, t: seq<int>) {
    forall i, j :: 0 <= i < |s| && 0 <= j < |t| ==> s[i] < t[j]
  }

  /** What has been read is what was kept and what was cut. */
  ghost predicate Split(list: seq<int>, now: seq<int>, at: nat, ncut: nat, cut: multiset<int>) {
    && ncut <= at <= |list| == |now|
    && now[at..] == list[at..]
    && multiset(list[..at]) == multiset(now[..at - ncut]) + cut
  }

  lemma KeepOne(list: seq<int>, now: seq<int>, at: nat, ncut: nat, cut: multiset<int>)
    requires at < |list| && Split(list, now, at, ncut, cut)
    ensures var next := now[at - ncut := now[at]];
            Split(list, next, at + 1, ncut, cut) && next[..at + 1 - ncut] == now[..at - ncut] + [list[at]]
  {
    var next := now[at - ncut := now[at]];
    assert now[at] == now[at..][0] == list[at];
    assert list[..at + 1] == list[..at] + [list[at]];
    assert next[..at + 1 - ncut] == now[..at - ncut] + [list[at]];
    assert next[at + 1..] == now[at..][1..] == list[at..][1..] == list[at + 1..];
  }

  lemma CutOne(list: seq<int>, now: seq<int>, at: nat, ncut: nat, cut: multiset<int>)
    requires at < |list| && Split(list, now, at, ncut, cut)
    ensures now[at] == list[at] && Split(list, now, at + 1, ncut + 1, cut + multiset{list[at]})
  {
    assert now[at] == now[at..][0] == list[at];
    assert list[..at + 1] == list[..at] + [list[at]];
    assert now[at + 1..] == now[at..][1..] == list[at..][1..] == list[at + 1..];
  }

  lemma Drained(list: seq<int>, now: seq<int>, at: nat, ncut: nat, cut: multiset<int>)
    requires Split(list, now, at, ncut, cut)
    ensures multiset(list) == multiset(now[..at - ncut] + list[at..]) + cut
    ensures now[..at - ncut] + now[at..] == now[..at - ncut] + list[at..]
  {
    assert list == list[..at] + list[at..];
  }

  /** A smaller head joins what was kept; it lies before the rest of the other list. */
  lemma BeforeMore(kept: seq<int>, list: seq<int>, at: nat, other: seq<int>, o: nat)
    requires Sorted(list) && Sorted(other) && at < |list| && o < |other| && list[at] < other[o]
    requires Before(kept, other[o..])
    ensures Before(kept + [list[at]], other[o..])
  {
    forall j | 0 <= j < |other[o..]| ensures list[at] < other[o..][j] {
      assert other[o] <= other[o + j];
    }
  }

  lemma BeforeTail(kept: seq<int>, list: seq<int>, at: nat)
    requires at < |list| && Before(kept, list[at..])
    ensures Before(kept, list[at + 1..]) && forall i :: 0 <= i < |kept| ==> kept[i] < list[at]
  {
    var rest, tail := list[at..], list[at + 1..];
    assert rest[0] == list[at];
    forall i, j | 0 <= i < |kept| && 0 <= j < |tail| ensures kept[i] < tail[j] {
      assert tail[j] == rest[j + 1];
    }
  }

  /** The kept parts and whatever is left of one list have nothing in common. */
  lemma ApartAtTheEnd(a: seq<int>, restA: seq<int>, b: seq<int>, restB: seq<int>)
    requires Apart(a, b) && Before(a, restB) && Before(b, restA) && (restA == [] || restB == [])
    ensures Apart(a + restA, b + restB)
  {
  }

  /** In order, and with the rest to come. */
  ghost predicate InOrder(kept: seq<int>, rest: seq<int>) {
    Sorted(kept) && forall i, j :: 0 <= i < |kept| && 0 <= j < |rest| ==> kept[i] <= rest[j]
  }

  lemma InOrderNext(kept: seq<int>, list: seq<int>, at: nat)
    requires Sorted(list) && at < |list| && InOrder(kept, list[at..])
    ensures InOrder(kept, list[at + 1..]) && InOrder(kept + [list[at]], list[at + 1..])
  {
    var rest, tail := list[at..], list[at + 1..];
    assert rest[0] == list[at];
    forall i, j | 0 <= i < |kept| && 0 <= j < |tail| ensures kept[i] <= tail[j] {
      assert tail[j] == rest[j + 1];
    }
  }

  lemma InOrderDone(kept: seq<int>, list: seq<int>, at: nat)
    requires Sorted(list) && at <= |list| && InOrder(kept, list[at..])
    ensures Sorted(kept + list[at..])
  {
  }

  /** Cuts what both sorted lists hold and leaves the order; a repeated output is an error. */
  method CutThroughSorted(inputs: seq<int>, outputs: seq<int>) returns (r: Option<(seq<int>, seq<int>)>)
    requires Sorted(inputs) && Sorted(outputs)
    ensures r.None? <==> HasRepeat(outputs)
    ensures r.Some? ==>
              var both := multiset(inputs) * multiset(outputs);
              && multiset(r.value.0) == multiset(inputs) - both
              && multiset(r.value.1) == multiset(outputs) - both
              && Sorted(r.value.0) && Sorted(r.value.1)
  {
    hide Before, Apart, Split, Sorted, InOrder;
    if exists i :: 0 <= i < |outputs| - 1 && outputs[i] == outputs[i + 1] {
      return None;
    }
    var ins, outs := inputs, outputs;
    var i, o, ncut := 0, 0, 0;
    ghost var cut: multiset<int> := multiset{};
    Start(inputs, outputs);
    while i < |ins| && o < |outs|
      invariant 0 <= ncut <= i <= |ins| && ncut <= o <= |outs| && |ins| == |inputs| && |outs| == |outputs|
      invariant Split(inputs, ins, i, ncut, cut) && Split(outputs, outs, o, ncut, cut)
      invariant Before(ins[..i - ncut], outputs[o..]) && Before(outs[..o - ncut], inputs[i..])
      invariant Apart(ins[..i - ncut], outs[..o - ncut])
      invariant InOrder(ins[..i - ncut], inputs[i..]) && InOrder(outs[..o - ncut], outputs[o..])
    {
      InOrderNext(ins[..i - ncut], inputs, i);
      InOrderNext(outs[..o - ncut], outputs, o);
      CutOne(inputs, ins, i, ncut, cut);
      CutOne(outputs, outs, o, ncut, cut);
      if ins[i] < outs[o] {
        KeepOne(inputs, ins, i, ncut, cut);
        BeforeMore(ins[..i - ncut], inputs, i, outputs, o);
        KeepApart(outs[..o - ncut], inputs, i, ins[..i - ncut]);
        ins := ins[i - ncut := ins[i]];
        i := i + 1;
      } else if ins[i] > outs[o] {
        KeepOne(outputs, outs, o, ncut, cut);
        BeforeMore(outs[..o - ncut], outputs, o, inputs, i);
        Turned(ins[..i - ncut], outs[..o - ncut]);
        KeepApart(ins[..i - ncut], outputs, o, outs[..o - ncut]);
        Turned(outs[..o - ncut] + [outputs[o]], ins[..i - ncut]);
        outs := outs[o - ncut := outs[o]];
        o := o + 1;
      } else {
        BeforeTail(ins[..i - ncut], outputs, o);
        BeforeTail(outs[..o - ncut], inputs, i);
        cut := cut + multiset{inputs[i]};
        i, o, ncut := i + 1, o + 1, ncut + 1;
      }
    }
    Drained(inputs, ins, i, ncut, cut);
    Drained(outputs, outs, o, ncut, cut);
    ApartAtTheEnd(ins[..i - ncut], inputs[i..], outs[..o - ncut], outputs[o..]);
    Common(ins[..i - ncut] + inputs[i..], outs[..o - ncut] + outputs[o..], cut);
    InOrderDone(ins[..i - ncut], inputs, i);
    InOrderDone(outs[..o - ncut], outputs, o);
    outs := outs[..o - ncut] + outs[o..];
    ins := ins[..i - ncut] + ins[i..];
    r := Some((ins, outs));
  }

  lemma Start(inputs: seq<int>, outputs: seq<int>)
    ensures Split(inputs, inputs, 0, 0, multiset{}) && Split(outputs, outputs, 0, 0, multiset{})
    ensures Before(inputs[..0], outputs[0..]) && Before(outputs[..0], inputs[0..]) && Apart(inputs[..0], outputs[..0])
    ensures InOrder(inputs[..0], inputs[0..]) && InOrder(outputs[..0], outputs[0..])
  {
  }

  lemma Turned(a: seq<int>, b: seq<int>)
    ensures Apart(a, b) <==> Apart(b, a)
  {
  }

  /** What is read next differs from everything kept of the other list, which lies before it. */
  lemma KeepApart(other: seq<int>, list: seq<int>, at: nat, kept: seq<int>)
    requires at < |list| && Before(other, list[at..]) && Apart(kept, other)
    ensures Apart(kept + [list[at]], other) && Before(other, list[at + 1..])
  {
    BeforeTail(other, list, at);
  }

  lemma Common(a: seq<int>, b: seq<int>, cut: multiset<int>)
    requires Apart(a, b)
    ensures (multiset(a) + cut) * (multiset(b) + cut) == cut
    ensures multiset(a) == (multiset(a) + cut) - cut && multiset(b) == (multiset(b) + cut) - cut
  {
    Disjoint(multiset(a), multiset(b), cut);
  }

  /** The loop computes the cut of aggregation, and fails exactly where aggregation does. */
  lemma CutThroughIsCut(tx: Tx, inputs: seq<int>, outputs: seq<int>)
    requires Sorted(outputs) && tx.inputs == multiset(inputs) && tx.outputs == multiset(outputs)
    ensures HasRepeat(outputs) <==> !DistinctOutputs(tx)
    ensures var both := multiset(inputs) * multiset(outputs);
            Cut(tx).inputs == multiset(inputs) - both && Cut(tx).outputs == multiset(outputs) - both
  {
    RepeatMeansNotDistinct(outputs);
  }

  function Insert(s: seq<int>, x: int): (t: seq<int>)
    requires Sorted(s)
    ensures Sorted(t) && multiset(t) == multiset(s) + multiset{x}
  {
    if s == [] then [x]
    else if s[0] >= x then [x] + s
    else
      var rest := Insert(s[1..], x);
      InsertStep(s, x, rest);
      [s[0]] + rest
  }

  lemma InsertStep(s: seq<int>, x: int, rest: seq<int>)
    requires Sorted(s) && s != [] && s[0] < x
    requires Sorted(rest) && multiset(rest) == multiset(s[1..]) + multiset{x}
    ensures Sorted([s[0]] + rest) && multiset([s[0]] + rest) == multiset(s) + multiset{x}
  {
    assert s == [s[0]] + s[1..];
    forall j | 0 <= j < |rest| ensures s[0] <= rest[j] {
      assert rest[j] in multiset(rest);
      if rest[j] != x {
        var i :| 0 <= i < |s[1..]| && s[1..][i] == rest[j];
        assert s[0] <= s[i + 1];
      }
    }
  }

  /** The sorted list of the same elements. */
  function SortUnstable(s: seq<int>): (t: seq<int>)
    ensures Sorted(t) && multiset(t) == multiset(s)
  {
    if s == [] then []
    else
      assert s == s[..|s| - 1] + [s[|s| - 1]];
      Insert(SortUnstable(s[..|s| - 1]), s[|s| - 1])
  }

  /** Sorts both lists and cuts what both hold: the cut of aggregation, with the same failures. */
  method CutThroughLists(ghost tx: Tx, inputs: seq<int>, outputs: seq<int>) returns (r: Option<(seq<int>, seq<int>)>)
    requires tx.inputs == multiset(inputs) && tx.outputs == multiset(outputs)
    ensures r.Some? <==> DistinctOutputs(tx)
    ensures r.Some? ==>
              && multiset(r.value.0) == Cut(tx).inputs && multiset(r.value.1) == Cut(tx).outputs
              && Sorted(r.value.0) && Sorted(r.value.1)
  {
    hide Sorted, HasRepeat, DistinctOutputs, Cut;
    var ins, outs := SortUnstable(inputs), SortUnstable(outputs);
    CutThroughIsCut(tx, ins, outs);
    r := CutThroughSorted(ins, outs);
  }
}
