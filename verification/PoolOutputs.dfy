/**
 Why the stem pool never creates an output again that the public pool has created and spent: when
 its transactions are checked against the aggregate, where such an output is cut out, the chain
 state and the transactions let in before do not allow it.
 */
module PoolOutputs {
  import opened Options
  import opened Aggregation
  import opened Pools

  /** No input and no output twice, and no output spent where it is created. */
  ghost predicate Clean(tx: Tx) {
    && (forall c :: tx.inputs[c] <= 1) && (forall c :: tx.outputs[c] <= 1)
    && (forall c :: tx.inputs[c] == 0 || tx.outputs[c] == 0)
  }

  /** Inputs are unspent in the state, outputs are not. */
  ghost predicate Spends(rules: Rules, state: State, tx: Tx) {
    && (forall c | c in tx.inputs :: rules.unspent(state, c))
    && (forall c | c in tx.outputs :: !rules.unspent(state, c))
  }

  /** What the rules check at least. */
  ghost predicate Strict(rules: Rules) {
    && (forall tx | rules.sound(tx) :: Clean(tx))
    && (forall state, tx | rules.fits(state, tx) :: Spends(rules, state, tx))
  }

  ghost predicate AllClean(entries: seq<Entry>) {
    forall e | e in entries :: Clean(e.tx)
  }

  /** What valid transactions come to, commitment by commitment. */
  lemma NetAt(rules: Rules, state: State, txs: seq<Tx>, c: Commitment)
    requires Strict(rules) && Valid(rules, state, Net(txs))
    ensures Sum(txs).inputs[c] <= Sum(txs).outputs[c] + 1
    ensures Sum(txs).inputs[c] > Sum(txs).outputs[c] ==> rules.unspent(state, c)
    ensures Sum(txs).outputs[c] > Sum(txs).inputs[c] ==> !rules.unspent(state, c)
  {
    hide Sum;
    var net := Net(txs);
    assert Clean(net) && Spends(rules, state, net);
    if |txs| == 1 {
      assert txs == [txs[0]];
      SumOfOne(txs[0]);
    }
    assert net.inputs[c] <= 1;
  }

  /** All outputs of both pools are different, and so the stem pool is valid step by step over the public pool. */
  ghost predicate Apart(rules: Rules, state: State, pool: seq<Entry>, stem: seq<Entry>) {
    && AllClean(pool) && AllClean(stem)
    && DistinctOutputs(Sum(TxsOf(stem) + TxsOf(pool)))
    && forall i :: 0 < i <= |stem| ==> Valid(rules, state, Net(TxsOf(stem[..i]) + TxsOf(pool)))
  }

  lemma SumAt(a: seq<Tx>, b: seq<Tx>, c: Commitment)
    ensures Sum(a + b).inputs[c] == Sum(a).inputs[c] + Sum(b).inputs[c]
    ensures Sum(a + b).outputs[c] == Sum(a).outputs[c] + Sum(b).outputs[c]
  {
    hide Sum;
    SumOfBoth(a, b);
  }

  lemma OneMore(a: seq<Tx>, tx: Tx, c: Commitment)
    ensures Sum(a + [tx]).inputs[c] == Sum(a).inputs[c] + tx.inputs[c]
    ensures Sum(a + [tx]).outputs[c] == Sum(a).outputs[c] + tx.outputs[c]
  {
    hide Sum;
    SumAt(a, [tx], c);
    SumOfOne(tx);
  }

  lemma DistinctAt(tx: Tx)
    ensures DistinctOutputs(tx) <==> forall c :: tx.outputs[c] <= 1
  {
    if DistinctOutputs(tx) {
      forall c ensures tx.outputs[c] <= 1 {
        if c in tx.outputs { assert tx.outputs[c] == 1; }
      }
    }
  }

  /** Part of the entries sum up to part. */
  lemma {:induction false} PartOfSum(s: seq<Entry>, t: seq<Entry>, c: Commitment)
    requires Subsequence(s, t)
    ensures Sum(TxsOf(s)).inputs[c] <= Sum(TxsOf(t)).inputs[c]
    ensures Sum(TxsOf(s)).outputs[c] <= Sum(TxsOf(t)).outputs[c]
    decreases |t|
  {
    hide Sum;
    if s == [] {
      assert TxsOf(s) == [];
      NoSum();
    } else {
      var init, last := t[..|t| - 1], t[|t| - 1];
      assert t == init + [last] && s == s[..|s| - 1] + [s[|s| - 1]];
      TxsMore(init, last);
      OneMore(TxsOf(init), last.tx, c);
      if Subsequence(s, init) {
        PartOfSum(s, init, c);
      } else {
        PartOfSum(s[..|s| - 1], init, c);
        TxsMore(s[..|s| - 1], s[|s| - 1]);
        OneMore(TxsOf(s[..|s| - 1]), s[|s| - 1].tx, c);
      }
    }
  }

  lemma NoSum()
    ensures Sum([]) == EMPTY
  {
  }

  /** A transaction that joins the stem pool over the transactions of the public pool. */
  lemma StemGrows(rules: Rules, state: State, pool: seq<Entry>, stem: seq<Entry>, e: Entry)
    requires Strict(rules) && Apart(rules, state, pool, stem) && Clean(e.tx)
    requires Joins(rules, state, stem, TxsOf(pool), e)
    ensures Apart(rules, state, pool, stem + [e])
  {
    hide Sum, Net, Aggregate, Strict, Clean, Valid;
    var more := stem + [e];
    JoinedIsValid(rules, state, stem, TxsOf(pool), e);
    var txs := TxsOf(more) + TxsOf(pool);
    AggregateIsNet(txs);
    AggregateDistinct(rules, state, txs);
    forall i | 0 < i <= |more| ensures Valid(rules, state, Net(TxsOf(more[..i]) + TxsOf(pool))) {
      if i <= |stem| { assert more[..i] == stem[..i]; } else { assert more[..i] == more; }
    }
  }

  lemma AggregateDistinct(rules: Rules, state: State, txs: seq<Tx>)
    requires Strict(rules) && ValidTogether(rules, state, txs)
    ensures DistinctOutputs(Sum(txs))
  {
    if txs == [] {
    } else if |txs| == 1 {
      assert txs == [txs[0]];
      SumOfOne(txs[0]);
      assert Clean(txs[0]);
      DistinctAt(txs[0]);
    }
  }

  /** What is counted in for the stem pool: the aggregate of the public pool. */
  function Over(pool: seq<Entry>): seq<Tx>
    requires Aggregate(TxsOf(pool)).Some?
  {
    if pool == [] then [] else [Aggregate(TxsOf(pool)).value]
  }

  /** Valid over the aggregate is valid over the pool. */
  lemma ValidOver(rules: Rules, state: State, pool: seq<Entry>, stem: seq<Tx>)
    requires Aggregate(TxsOf(pool)).Some? && ValidTogether(rules, state, stem + Over(pool))
    ensures Valid(rules, state, Net(stem + TxsOf(pool)))
  {
    hide Net, Aggregate, Valid;
    AggregateIsNet(stem + Over(pool));
    if pool == [] {
      assert TxsOf(pool) == [];
    } else {
      AggregateIsNet(TxsOf(pool));
      NetWithAggregate(stem, TxsOf(pool));
    }
  }

  lemma {:induction false} KeptStepwise(rules: Rules, state: State, entries: seq<Entry>, extra: seq<Tx>, i: nat)
    requires 0 < i <= |Kept(rules, state, entries, extra)|
    ensures ValidTogether(rules, state, TxsOf(Kept(rules, state, entries, extra)[..i]) + extra)
    decreases |entries|
  {
    hide Joins, ValidTogether;
    var init, e := entries[..|entries| - 1], entries[|entries| - 1];
    var before, kept := Kept(rules, state, init, extra), Kept(rules, state, entries, extra);
    if i <= |before| {
      KeptStepwise(rules, state, init, extra, i);
      assert kept[..i] == before[..i];
    } else {
      JoinedIsValid(rules, state, before, extra, e);
      assert kept[..i] == before + [e];
    }
  }

  /** A transaction of the stem pool that would create what the public pool spends and the newcomer creates. */
  lemma NotCreatedAgain(
      rules: Rules, state: State, pool: seq<Entry>, e: Entry, stem: seq<Entry>, n: nat, kept: seq<Entry>, c: Commitment)
    requires Strict(rules) && Apart(rules, state, pool, stem) && Clean(e.tx) && n < |stem|
    requires pool != [] && Valid(rules, state, Net(TxsOf(pool))) && DistinctOutputs(Sum(TxsOf(pool + [e])))
    requires Sum(TxsOf(pool)).inputs[c] > 0 && Sum(TxsOf(pool)).outputs[c] == 0 && e.tx.outputs[c] > 0
    requires Subsequence(kept, stem[..n]) && Sum(TxsOf(kept)).outputs[c] == 0
    requires Valid(rules, state, Net(TxsOf(kept + [stem[n]]) + TxsOf(pool + [e])))
    ensures stem[n].tx.outputs[c] == 0
  {
    hide Sum, Net, Strict, Valid, Subsequence;
    var p, tx := TxsOf(pool), stem[n].tx;
    if tx.outputs[c] > 0 {
      assert stem[n] in stem;
      NetAt(rules, state, p, c);
      TxsMore(pool, e);
      OneMore(p, e.tx, c);
      TxsMore(kept, stem[n]);
      OneMore(TxsOf(kept), tx, c);
      var all := TxsOf(kept + [stem[n]]) + TxsOf(pool + [e]);
      SumAt(TxsOf(kept + [stem[n]]), TxsOf(pool + [e]), c);
      NetAt(rules, state, all, c);
      assert Sum(TxsOf(kept)).inputs[c] > 0;
      PartOfSum(kept, stem[..n], c);
      CreatedOnce(stem, pool, n, c);
      NotSpentBefore(rules, state, pool, stem, n, c);
    }
  }

  /** All outputs being different, an output is not created before the transaction that creates it. */
  lemma CreatedOnce(stem: seq<Entry>, pool: seq<Entry>, n: nat, c: Commitment)
    requires n < |stem| && DistinctOutputs(Sum(TxsOf(stem) + TxsOf(pool))) && stem[n].tx.outputs[c] > 0
    ensures Sum(TxsOf(stem[..n])).outputs[c] == 0
  {
    hide Sum;
    DistinctAt(Sum(TxsOf(stem) + TxsOf(pool)));
    SumAt(TxsOf(stem), TxsOf(pool), c);
    assert stem[..n + 1] == stem[..n] + [stem[n]];
    TxsMore(stem[..n], stem[n]);
    OneMore(TxsOf(stem[..n]), stem[n].tx, c);
    assert TxsOf(stem) == TxsOf(stem[..n + 1]) + TxsOf(stem[n + 1..]);
    SumAt(TxsOf(stem[..n + 1]), TxsOf(stem[n + 1..]), c);
  }

  /** What the public pool spends, the stem pool does not spend as well before it is created again. */
  lemma NotSpentBefore(rules: Rules, state: State, pool: seq<Entry>, stem: seq<Entry>, n: nat, c: Commitment)
    requires Strict(rules) && Apart(rules, state, pool, stem) && n <= |stem|
    requires Sum(TxsOf(pool)).inputs[c] > 0 && Sum(TxsOf(pool)).outputs[c] == 0
    requires Sum(TxsOf(stem[..n])).outputs[c] == 0
    ensures Sum(TxsOf(stem[..n])).inputs[c] == 0
  {
    hide Sum, Net, Strict, Valid;
    if n == 0 {
      assert TxsOf(stem[..n]) == [];
      NoSum();
    } else {
      var head := TxsOf(stem[..n]);
      NetAt(rules, state, head + TxsOf(pool), c);
      SumAt(head, TxsOf(pool), c);
    }
  }

  /** The entry joins a valid public pool. */
  ghost predicate Admitted(rules: Rules, state: State, pool: seq<Entry>, e: Entry) {
    && (pool != [] ==> ValidTogether(rules, state, TxsOf(pool)))
    && Clean(e.tx) && ValidTogether(rules, state, TxsOf(pool + [e]))
  }

  lemma {:induction false} KeptAvoids(
      rules: Rules, state: State, pool: seq<Entry>, e: Entry, stem: seq<Entry>, n: nat, c: Commitment)
    requires Strict(rules) && Apart(rules, state, pool, stem) && Admitted(rules, state, pool, e) && n <= |stem|
    requires Sum(TxsOf(pool)).inputs[c] > 0 && Sum(TxsOf(pool)).outputs[c] == 0 && e.tx.outputs[c] > 0
    ensures Sum(TxsOf(Kept(rules, state, stem[..n], Over(pool + [e])))).outputs[c] == 0
    decreases n
  {
    hide Sum, Net, Strict, Valid, Aggregate, Clean, Apart;
    var extra := Over(pool + [e]);
    if n == 0 {
      assert TxsOf(Kept(rules, state, stem[..n], extra)) == [];
      NoSum();
    } else {
      KeptAvoids(rules, state, pool, e, stem, n - 1, c);
      var kept, last := Kept(rules, state, stem[..n - 1], extra), stem[n - 1];
      KeptStep(rules, state, stem, extra, n - 1);
      if Joins(rules, state, kept, extra, last) {
        JoinedIsValid(rules, state, kept, extra, last);
        ValidOver(rules, state, pool + [e], TxsOf(kept + [last]));
        KeptIsSubsequence(rules, state, stem[..n - 1], extra);
        PoolStands(rules, state, pool, e, c);
        NotCreatedAgain(rules, state, pool, e, stem, n - 1, kept, c);
        TxsMore(kept, last);
        OneMore(TxsOf(kept), last.tx, c);
      }
    }
  }

  lemma PoolStands(rules: Rules, state: State, pool: seq<Entry>, e: Entry, c: Commitment)
    requires Strict(rules) && Admitted(rules, state, pool, e) && Sum(TxsOf(pool)).inputs[c] > 0
    ensures pool != [] && Valid(rules, state, Net(TxsOf(pool))) && DistinctOutputs(Sum(TxsOf(pool + [e])))
  {
    hide Sum, Net, Strict, Valid, Aggregate, Clean;
    if pool == [] {
      assert TxsOf(pool) == [];
      NoSum();
    } else {
      AggregateIsNet(TxsOf(pool));
      AggregateDistinct(rules, state, TxsOf(pool + [e]));
    }
  }

  /** Nothing kept of the stem pool creates what the public pool, with the newcomer, creates and spends. */
  lemma NothingCutComesAgain(rules: Rules, state: State, pool: seq<Entry>, e: Entry, stem: seq<Entry>, c: Commitment)
    requires Strict(rules) && Apart(rules, state, pool, stem) && Admitted(rules, state, pool, e)
    requires var sum := Sum(TxsOf(pool + [e])); sum.inputs[c] > 0 && sum.outputs[c] > 0
    ensures Sum(TxsOf(Kept(rules, state, stem, Over(pool + [e])))).outputs[c] == 0
  {
    hide Sum, Net, Strict, Valid, Aggregate;
    TxsMore(pool, e);
    OneMore(TxsOf(pool), e.tx, c);
    if Sum(TxsOf(pool)).outputs[c] > 0 {
      DistinctAt(Sum(TxsOf(stem) + TxsOf(pool)));
      SumAt(TxsOf(stem), TxsOf(pool), c);
      KeptIsSubsequence(rules, state, stem, Over(pool + [e]));
      PartOfSum(Kept(rules, state, stem, Over(pool + [e])), stem, c);
    } else {
      KeptAvoids(rules, state, pool, e, stem, |stem|, c);
      assert stem[..|stem|] == stem;
    }
  }

  /** Distinct over the aggregate, and nothing cut comes again: distinct over the pool. */
  lemma DistinctOver(rules: Rules, state: State, pool: seq<Entry>, stem: seq<Tx>)
    requires Strict(rules) && ValidTogether(rules, state, TxsOf(pool)) && ValidTogether(rules, state, stem + Over(pool))
    requires forall c :: Sum(TxsOf(pool)).inputs[c] > 0 && Sum(TxsOf(pool)).outputs[c] > 0 ==> Sum(stem).outputs[c] == 0
    ensures DistinctOutputs(Sum(stem + TxsOf(pool)))
  {
    hide Sum, Strict, Aggregate, Valid, DistinctOutputs, Over;
    var p := Sum(TxsOf(pool));
    DistinctAt(Sum(stem + TxsOf(pool)));
    AggregateDistinct(rules, state, stem + Over(pool));
    DistinctAt(Sum(stem + Over(pool)));
    AggregateDistinct(rules, state, TxsOf(pool));
    DistinctAt(p);
    forall c ensures Sum(stem + TxsOf(pool)).outputs[c] <= 1 {
      SumAt(stem, TxsOf(pool), c);
      SumAt(stem, Over(pool), c);
      if p.inputs[c] == 0 { OverAt(rules, state, pool, c); }
    }
  }

  /** What is left of an output that the pool does not spend. */
  lemma OverAt(rules: Rules, state: State, pool: seq<Entry>, c: Commitment)
    requires Strict(rules) && ValidTogether(rules, state, TxsOf(pool)) && Sum(TxsOf(pool)).inputs[c] == 0
    ensures Sum(Over(pool)).outputs[c] == Sum(TxsOf(pool)).outputs[c]
  {
    hide Sum, Strict;
    if pool == [] {
      assert TxsOf(pool) == [];
    } else {
      SumOfOne(Aggregate(TxsOf(pool)).value);
      if |pool| == 1 { assert TxsOf(pool) == [pool[0].tx]; }
    }
  }

  lemma KeptIsClean(rules: Rules, state: State, stem: seq<Entry>, extra: seq<Tx>)
    requires AllClean(stem)
    ensures AllClean(Kept(rules, state, stem, extra))
  {
    hide Kept, Clean;
    KeptIsSubsequence(rules, state, stem, extra);
    SubsequenceHolds(Kept(rules, state, stem, extra), stem);
  }

  /** Let in again over a valid public pool, and creating nothing that it cuts, the stem pool stays apart. */
  lemma KeptIsApart(rules: Rules, state: State, pool: seq<Entry>, stem: seq<Entry>)
    requires Strict(rules) && AllClean(pool) && AllClean(stem)
    requires pool != [] ==> ValidTogether(rules, state, TxsOf(pool))
    requires Aggregate(TxsOf(pool)).Some?
    requires var kept := Kept(rules, state, stem, Over(pool));
             forall c :: Sum(TxsOf(pool)).inputs[c] > 0 && Sum(TxsOf(pool)).outputs[c] > 0 ==>
               Sum(TxsOf(kept)).outputs[c] == 0
    ensures Apart(rules, state, pool, Kept(rules, state, stem, Over(pool)))
  {
    hide Sum, Strict, Net, Aggregate, Valid, Kept, Clean;
    var kept := Kept(rules, state, stem, Over(pool));
    KeptIsClean(rules, state, stem, Over(pool));
    forall i | 0 < i <= |kept| ensures Valid(rules, state, Net(TxsOf(kept[..i]) + TxsOf(pool))) {
      KeptStepwise(rules, state, stem, Over(pool), i);
      ValidOver(rules, state, pool, TxsOf(kept[..i]));
    }
    if kept == [] {
      assert TxsOf(kept) + TxsOf(pool) == TxsOf(pool);
      if pool == [] { NothingDistinct(pool); } else { AggregateDistinct(rules, state, TxsOf(pool)); }
    } else {
      KeptIsValid(rules, state, stem, Over(pool));
      if pool == [] {
        assert TxsOf(pool) == [] == Over(pool);
        AggregateDistinct(rules, state, TxsOf(kept) + Over(pool));
      } else {
        DistinctOver(rules, state, pool, TxsOf(kept));
      }
    }
  }

  lemma NothingAggregates(pool: seq<Entry>)
    ensures pool == [] ==> Aggregate(TxsOf(pool)).Some?
  {
  }

  lemma NothingDistinct(pool: seq<Entry>)
    requires pool == []
    ensures DistinctOutputs(Sum(TxsOf(pool)))
  {
  }

  /** A transaction that joins the public pool: what is kept of the stem pool stays apart from it. */
  lemma PoolGrows(rules: Rules, state: State, pool: seq<Entry>, stem: seq<Entry>, e: Entry)
    requires Strict(rules) && Apart(rules, state, pool, stem) && Admitted(rules, state, pool, e)
    ensures Apart(rules, state, pool + [e], Kept(rules, state, stem, Over(pool + [e])))
  {
    hide Sum, Strict, Net, Aggregate, Valid, Kept, Clean;
    var all := pool + [e];
    forall c | Sum(TxsOf(all)).inputs[c] > 0 && Sum(TxsOf(all)).outputs[c] > 0
      ensures Sum(TxsOf(Kept(rules, state, stem, Over(all)))).outputs[c] == 0 {
      NothingCutComesAgain(rules, state, pool, e, stem, c);
    }
    KeptIsApart(rules, state, all, stem);
  }

  /** Parts of pools with different outputs, let in again in a new state, are apart. */
  lemma PartsAreApart(
      rules: Rules, state: State, pool: seq<Entry>, stem: seq<Entry>, part: seq<Entry>, rest: seq<Entry>)
    requires Strict(rules) && AllClean(pool) && AllClean(stem) && DistinctOutputs(Sum(TxsOf(stem) + TxsOf(pool)))
    requires Subsequence(part, pool) && Subsequence(rest, stem)
    requires part != [] ==> ValidTogether(rules, state, TxsOf(part))
    requires Aggregate(TxsOf(part)).Some?
    ensures Apart(rules, state, part, Kept(rules, state, rest, Over(part)))
  {
    hide Sum, Strict, Net, Aggregate, Valid, Kept, Clean, Subsequence;
    SubsequenceHolds(part, pool);
    SubsequenceHolds(rest, stem);
    var kept := Kept(rules, state, rest, Over(part));
    DistinctAt(Sum(TxsOf(stem) + TxsOf(pool)));
    forall c | Sum(TxsOf(part)).outputs[c] > 0 ensures Sum(TxsOf(kept)).outputs[c] == 0 {
      KeptIsSubsequence(rules, state, rest, Over(part));
      PartOfSum(kept, rest, c);
      PartOfSum(rest, stem, c);
      PartOfSum(part, pool, c);
      SumAt(TxsOf(stem), TxsOf(pool), c);
    }
    KeptIsApart(rules, state, part, rest);
  }

  /** Pools apart are valid as one list of transactions. */
  lemma ApartIsTogether(rules: Rules, state: State, pool: seq<Entry>, stem: seq<Entry>)
    requires Apart(rules, state, pool, stem) && stem != []
    ensures ValidTogether(rules, state, TxsOf(stem) + TxsOf(pool))
  {
    hide Sum, Clean, Cut, Valid;
    assert stem[..|stem|] == stem;
    var txs := TxsOf(stem) + TxsOf(pool);
    assert Aggregate(txs) == Some(Net(txs));
  }
}
