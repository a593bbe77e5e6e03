/** Transactions and their aggregation with cut-through. */
module Aggregation {
  import opened Options

  type Commitment = int

  /** Inputs, outputs and kernels with how often each occurs, and the kernel offset. */
  datatype Tx = Tx(inputs: multiset<Commitment>, outputs: multiset<Commitment>, kernels: multiset<int>, offset: int)

  const EMPTY: Tx := Tx(multiset{}, multiset{}, multiset{}, 0)

  function Plus(a: Tx, b: Tx): Tx {
    Tx(a.inputs + b.inputs, a.outputs + b.outputs, a.kernels + b.kernels, a.offset + b.offset)
  }

  function Sum(txs: seq<Tx>): Tx {
    if txs == [] then EMPTY else Plus(Sum(txs[..|txs| - 1]), txs[|txs| - 1])
  }

  /** What is both created and spent goes. */
  function Cut(tx: Tx): Tx {
    var both := tx.inputs * tx.outputs;
    tx.(inputs := tx.inputs - both, outputs := tx.outputs - both)
  }

  predicate DistinctOutputs(tx: Tx) {
    forall c | c in tx.outputs :: tx.outputs[c] == 1
  }

  /** One transaction for several; a repeated output is an error even if it would be cut. */
  function Aggregate(txs: seq<Tx>): Option<Tx> {
    if txs == [] then Some(EMPTY)
    else if |txs| == 1 then Some(txs[0])
    else if DistinctOutputs(Sum(txs)) then Some(Cut(Sum(txs)))
    else None
  }

  /** The same without the error: what the transactions come to together. */
  function Net(txs: seq<Tx>): Tx {
    if |txs| == 1 then txs[0] else Cut(Sum(txs))
  }

  lemma AggregateIsNet(txs: seq<Tx>)
    requires Aggregate(txs).Some?
    ensures Aggregate(txs).value == Net(txs)
  {
    if txs == [] { assert Cut(EMPTY) == EMPTY; }
  }

  lemma PlusAssociates(a: Tx, b: Tx, c: Tx)
    ensures Plus(Plus(a, b), c) == Plus(a, Plus(b, c))
  {
    Associates(a.inputs, b.inputs, c.inputs);
    Associates(a.outputs, b.outputs, c.outputs);
    Associates(a.kernels, b.kernels, c.kernels);
  }

  lemma Associates(a: multiset<int>, b: multiset<int>, c: multiset<int>)
    ensures (a + b) + c == a + (b + c)
  {
  }

  lemma PlusCommutes(a: Tx, b: Tx)
    ensures Plus(a, b) == Plus(b, a)
  {
  }

  lemma PlusNothing(a: Tx)
    ensures Plus(a, EMPTY) == a && Plus(EMPTY, a) == a
  {
  }

  lemma {:induction false} SumOfBoth(a: seq<Tx>, b: seq<Tx>)
    ensures Sum(a + b) == Plus(Sum(a), Sum(b))
    decreases |b|
  {
    hide Plus;
    if b == [] {
      assert a + b == a;
      PlusNothing(Sum(a));
    } else {
      var init, last := b[..|b| - 1], b[|b| - 1];
      SumOfBoth(a, init);
      assert (a + b)[..|a + b| - 1] == a + init;
      PlusAssociates(Sum(a), Sum(init), last);
    }
  }

  lemma SumOfOne(tx: Tx)
    ensures Sum([tx]) == tx
  {
    assert [tx][..0] == [];
    PlusNothing(tx);
  }

  /** Taking out what is common to a part first does not change what is left of the whole. */
  lemma CutPart(i: multiset<int>, o: multiset<int>, j: multiset<int>, p: multiset<int>)
    ensures var both := i * o;
            (i - both + j) - (i - both + j) * (o - both + p) == (i + j) - (i + j) * (o + p)
  {
    var both := i * o;
    var x, y := i - both + j, o - both + p;
    var u, v := i + j, o + p;
    forall c ensures (x - x * y)[c] == (u - u * v)[c] {
      assert both[c] == if i[c] <= o[c] then i[c] else o[c];
      assert x[c] == i[c] - both[c] + j[c];
      assert y[c] == o[c] - both[c] + p[c];
    }
  }

  lemma CutFirst(a: Tx, b: Tx)
    ensures Cut(Plus(Cut(a), b)) == Cut(Plus(a, b))
  {
    CutPart(a.inputs, a.outputs, b.inputs, b.outputs);
    CutPart(a.outputs, a.inputs, b.outputs, b.inputs);
    MeetCommutes(a.inputs, a.outputs);
    MeetCommutes(a.inputs + b.inputs, a.outputs + b.outputs);
    var both := a.inputs * a.outputs;
    MeetCommutes(a.inputs - both + b.inputs, a.outputs - both + b.outputs);
  }

  lemma MeetCommutes(a: multiset<int>, b: multiset<int>)
    ensures a * b == b * a
  {
  }

  lemma NetOfOneAndMore(a: seq<Tx>, b: seq<Tx>)
    requires a != []
    ensures Net([Net(a)] + b) == Net(a + b)
  {
    hide Plus, Sum, Cut;
    if b == [] {
      assert [Net(a)] + b == [Net(a)] && a + b == a;
    } else {
      SumOfBoth([Net(a)], b);
      SumOfBoth(a, b);
      SumOfOne(Net(a));
      if |a| == 1 {
        assert a == [a[0]];
      } else {
        CutFirst(Sum(a), Sum(b));
      }
    }
  }

  /** Order does not matter. */
  lemma NetSwaps(a: seq<Tx>, b: seq<Tx>, c: seq<Tx>)
    ensures Net(a + b + c) == Net(a + c + b)
  {
    hide Plus, Sum, Cut;
    SumOfBoth(a + b, c);
    SumOfBoth(a, b);
    SumOfBoth(a + c, b);
    SumOfBoth(a, c);
    PlusAssociates(Sum(a), Sum(b), Sum(c));
    PlusAssociates(Sum(a), Sum(c), Sum(b));
    PlusCommutes(Sum(b), Sum(c));
    if |a + b + c| == 1 {
      assert a == [] || (b == [] && c == []);
      assert a + b + c == a + c + b;
    }
  }

  /** A pool stands for its aggregate. */
  lemma NetWithAggregate(stem: seq<Tx>, pool: seq<Tx>)
    requires pool != []
    ensures Net(stem + [Net(pool)]) == Net(stem + pool)
  {
    hide Net;
    NetSwaps([], stem, [Net(pool)]);
    assert [] + stem + [Net(pool)] == stem + [Net(pool)] && [] + [Net(pool)] + stem == [Net(pool)] + stem;
    NetOfOneAndMore(pool, stem);
    NetSwaps([], pool, stem);
    assert [] + pool + stem == pool + stem && [] + stem + pool == stem + pool;
  }

  /** How often a kernel, an input or an output occurs in all transactions, and what their offsets add up to. */
  ghost function KernelCount(txs: seq<Tx>, k: int): nat {
    if txs == [] then 0 else txs[0].kernels[k] + KernelCount(txs[1..], k)
  }

  ghost function InputCount(txs: seq<Tx>, c: Commitment): nat {
    if txs == [] then 0 else txs[0].inputs[c] + InputCount(txs[1..], c)
  }

  ghost function OutputCount(txs: seq<Tx>, c: Commitment): nat {
    if txs == [] then 0 else txs[0].outputs[c] + OutputCount(txs[1..], c)
  }

  ghost function OffsetTotal(txs: seq<Tx>): int {
    if txs == [] then 0 else txs[0].offset + OffsetTotal(txs[1..])
  }

  lemma {:induction false} SumCounts(txs: seq<Tx>, x: int)
    ensures Sum(txs).kernels[x] == KernelCount(txs, x) && Sum(txs).offset == OffsetTotal(txs)
    ensures Sum(txs).inputs[x] == InputCount(txs, x) && Sum(txs).outputs[x] == OutputCount(txs, x)
    decreases |txs|
  {
    if txs != [] {
      SumCounts(txs[1..], x);
      SumOfBoth([txs[0]], txs[1..]);
      SumOfOne(txs[0]);
      assert [txs[0]] + txs[1..] == txs;
    }
  }

  /** What one transaction for several holds. */
  ghost predicate StandsFor(tx: Tx, txs: seq<Tx>) {
    && tx.offset == OffsetTotal(txs) && (forall k :: tx.kernels[k] == KernelCount(txs, k))
    && (forall c :: InputCount(txs, c) + tx.outputs[c] == OutputCount(txs, c) + tx.inputs[c])
    && (|txs| != 1 ==> forall c :: tx.inputs[c] == 0 || tx.outputs[c] == 0)
  }

  /**
   An aggregate has every kernel and the offsets of all its transactions. Inputs and outputs balance as
   in them, with nothing left on both sides.
   */
  lemma AggregateKeeps(txs: seq<Tx>)
    requires Aggregate(txs).Some?
    ensures StandsFor(Aggregate(txs).value, txs)
  {
    hide Sum;
    var tx := Aggregate(txs).value;
    forall x ensures tx.offset == OffsetTotal(txs) && tx.kernels[x] == KernelCount(txs, x)
      ensures InputCount(txs, x) + tx.outputs[x] == OutputCount(txs, x) + tx.inputs[x]
      ensures |txs| != 1 ==> tx.inputs[x] == 0 || tx.outputs[x] == 0 {
      SumCounts(txs, x);
      if |txs| == 1 {
        assert txs == [txs[0]];
        SumOfOne(txs[0]);
      }
    }
    SumCounts(txs, 0);
  }

  /** It fails exactly if some output is created twice by more than one transaction. */
  lemma AggregateFails(txs: seq<Tx>)
    ensures Aggregate(txs).None? <==> |txs| > 1 && exists c :: OutputCount(txs, c) > 1
  {
    hide Sum;
    if |txs| > 1 {
      if DistinctOutputs(Sum(txs)) {
        forall c ensures OutputCount(txs, c) <= 1 {
          SumCounts(txs, c);
          if c in Sum(txs).outputs { assert Sum(txs).outputs[c] == 1; }
        }
      } else {
        var c :| c in Sum(txs).outputs && Sum(txs).outputs[c] != 1;
        SumCounts(txs, c);
      }
    }
  }

  /** Aggregation succeeds and fails alike in any order. */
  lemma AggregateSwaps(a: seq<Tx>, b: seq<Tx>, c: seq<Tx>)
    ensures Aggregate(a + b + c) == Aggregate(a + c + b)
  {
    hide Plus, Sum, Cut, DistinctOutputs;
    NetSwaps(a, b, c);
    SumSwaps(a, b, c);
    if |a + b + c| == 1 {
      assert a == [] || (b == [] && c == []);
      assert a + b + c == a + c + b;
    }
  }

  lemma SumSwaps(a: seq<Tx>, b: seq<Tx>, c: seq<Tx>)
    ensures Sum(a + b + c) == Sum(a + c + b)
  {
    hide Plus, Sum;
    SumOfBoth(a + b, c);
    SumOfBoth(a, b);
    SumOfBoth(a + c, b);
    SumOfBoth(a, c);
    PlusAssociates(Sum(a), Sum(b), Sum(c));
    PlusAssociates(Sum(a), Sum(c), Sum(b));
    PlusCommutes(Sum(b), Sum(c));
  }

  /** No output of the stem transactions is one that the pool creates and spends itself. */
  ghost predicate NothingReused(stem: seq<Tx>, pool: seq<Tx>) {
    |pool| <= 1 || Sum(stem).outputs * (Sum(pool).inputs * Sum(pool).outputs) == multiset{}
  }

  lemma DistinctAfterCut(stem: multiset<int>, pool: multiset<int>, cut: multiset<int>)
    requires cut <= pool
    requires forall c | c in pool :: pool[c] == 1
    requires forall c | c in stem + (pool - cut) :: (stem + (pool - cut))[c] == 1
    ensures (forall c | c in stem + pool :: (stem + pool)[c] == 1) <==> stem * cut == multiset{}
  {
    if forall c | c in stem + pool :: (stem + pool)[c] == 1 {
      forall c ensures c !in stem * cut {
        assert c in stem + pool ==> (stem + pool)[c] == 1;
      }
    }
    if stem * cut == multiset{} {
      forall c | c in stem + pool ensures (stem + pool)[c] == 1 {
        assert (stem * cut)[c] == 0;
        if c in stem {
          assert cut[c] == 0;
          assert (stem + (pool - cut))[c] == (stem + pool)[c];
        }
      }
    }
  }

  /**
   Where aggregating over the aggregate of a pool succeeds, aggregating over its transactions does if
   and only if no output cut from the pool comes again.
   */
  lemma AggregateOverPool(stem: seq<Tx>, pool: seq<Tx>)
    requires stem != [] && pool != []
    requires Aggregate(pool).Some? && Aggregate(stem + [Aggregate(pool).value]).Some?
    ensures Aggregate(stem + pool).Some? <==> NothingReused(stem, pool)
  {
    var sum := Aggregate(pool).value;
    if |pool| == 1 {
      assert pool == [sum];
    } else {
      SumOfBoth(stem, pool);
      SumOfBoth(stem, [sum]);
      SumOfOne(sum);
      var p := Sum(pool);
      assert |stem + pool| > 1 && |stem + [sum]| > 1;
      DistinctAfterCut(Sum(stem).outputs, p.outputs, p.inputs * p.outputs);
    }
  }

  const CREATES: Tx := Tx(multiset{1}, multiset{2}, multiset{1}, 0)
  const SPENDS: Tx := Tx(multiset{2}, multiset{3}, multiset{2}, 0)
  const CREATES_AGAIN: Tx := Tx(multiset{4}, multiset{2}, multiset{3}, 0)

  lemma SpentInside()
    ensures Sum([CREATES, SPENDS]).inputs == multiset{1, 2} && Sum([CREATES, SPENDS]).outputs == multiset{2, 3}
    ensures Aggregate([CREATES, SPENDS]).Some? && Aggregate([CREATES, SPENDS]).value.outputs == multiset{3}
  {
    SumOfOne(CREATES);
    SumOfOne(SPENDS);
    SumOfBoth([CREATES], [SPENDS]);
    assert [CREATES] + [SPENDS] == [CREATES, SPENDS];
    assert multiset{1, 2} * multiset{2, 3} == multiset{2};
    assert multiset{2, 3} - multiset{2} == multiset{3};
  }

  /** A transaction that creates again what the pool created and spent: fine over the aggregate, not over the pool. */
  lemma ReusedOutput()
    ensures
      var pool, stem := [CREATES, SPENDS], [CREATES_AGAIN];
      && Aggregate(pool).Some? && Aggregate(stem + [Aggregate(pool).value]).Some?
      && Aggregate(stem + pool).None? && !NothingReused(stem, pool)
  {
    var pool, stem := [CREATES, SPENDS], [CREATES_AGAIN];
    SpentInside();
    var sum := Aggregate(pool).value;
    hide Aggregate, Cut, Sum;
    SumOfOne(CREATES_AGAIN);
    SumOfOne(sum);
    SumOfBoth(stem, [sum]);
    DistinctAggregate(stem + [sum]);
    assert 2 in Sum(stem).outputs * (Sum(pool).inputs * Sum(pool).outputs);
    AggregateOverPool(stem, pool);
  }

  lemma DistinctAggregate(txs: seq<Tx>)
    requires DistinctOutputs(Sum(txs))
    ensures Aggregate(txs).Some?
  {
  }
}
