/**
 The index from commitments to the positions of unspent outputs, kept while blocks are applied and
 rewound. A commitment may be used again once its output is spent. Positions are leaf numbers.
 */
module OutputPos {
  import Aggregation
  import ChainTree

  type Commitment = Aggregation.Commitment
  type BlockHash = ChainTree.Hash

  datatype Output = Output(features: int, commit: Commitment)
  datatype CommitPos = CommitPos(pos: nat, height: nat)
  datatype Block = Block(hash: BlockHash, height: nat, outputs: seq<Output>, inputs: seq<Output>)

  /** All outputs ever added, which of them are unspent, and the index. */
  datatype State = State(data: seq<Output>, unspent: set<nat>, index: map<Commitment, CommitPos>)

  /** The index lists exactly the unspent outputs, each under its commitment. */
  ghost predicate Indexed(s: State) {
    && (forall p :: p in s.unspent ==> p < |s.data| && Points(s.index, s.data[p].commit, p))
    && (forall c :: c in s.index ==>
          s.index[c].pos in s.unspent && s.index[c].pos < |s.data| && s.data[s.index[c].pos].commit == c)
  }

  predicate Points(index: map<Commitment, CommitPos>, c: Commitment, p: nat) {
    c in index && index[c].pos == p
  }

  /** No two unspent outputs have the same commitment. */
  lemma UnspentDiffer(s: State, p: nat, q: nat)
    requires Indexed(s) && p in s.unspent && q in s.unspent && s.data[p].commit == s.data[q].commit
    ensures p == q
  {
  }

  function Commitments(outputs: seq<Output>): set<Commitment> {
    set o | o in outputs :: o.commit
  }

  ghost predicate Distinct(outputs: seq<Output>) {
    forall i, j :: 0 <= i < j < |outputs| ==> outputs[i].commit != outputs[j].commit
  }

  /** The state with outputs added. */
  ghost function Added(s: State, outputs: seq<Output>, height: nat): State {
    if outputs == [] then s
    else
      var before, last := Added(s, outputs[..|outputs| - 1], height), outputs[|outputs| - 1];
      State(before.data + [last], before.unspent + {|before.data|},
        before.index[last.commit := CommitPos(|before.data|, height)])
  }

  /** The state with inputs spent. */
  ghost function Spent(s: State, inputs: seq<Output>): State {
    State(s.data, s.unspent - SpentPositions(s, inputs), s.index - Commitments(inputs))
  }

  ghost function SpentPositions(s: State, inputs: seq<Output>): set<nat> {
    set i | i in inputs && i.commit in s.index :: s.index[i.commit].pos
  }

  /** An input names an unspent output, features included. */
  ghost predicate Spends(s: State, input: Output) {
    input.commit in s.index && s.index[input.commit].pos < |s.data| && s.data[s.index[input.commit].pos] == input
  }

  /** What a block has to be like: new distinct commitments, and distinct inputs that name unspent outputs. */
  ghost predicate Applies(s: State, b: Block) {
    && Distinct(b.outputs) && (forall o :: o in b.outputs ==> o.commit !in s.index)
    && Distinct(b.inputs) && (forall i :: i in b.inputs ==> Spends(Added(s, b.outputs, b.height), i))
  }

  ghost function Applied(s: State, b: Block): State {
    Spent(Added(s, b.outputs, b.height), b.inputs)
  }

  /** What a block keeps to be undone: where its inputs were. */
  ghost predicate Keeps(s: State, b: Block, spent: seq<CommitPos>) {
    && |spent| == |b.inputs|
    && var grown := Added(s, b.outputs, b.height);
    && forall i :: 0 <= i < |spent| ==> b.inputs[i].commit in grown.index && spent[i] == grown.index[b.inputs[i].commit]
  }

  function Below(unspent: set<nat>, size: nat): set<nat> {
    set p | p in unspent && p < size
  }

  function Positions(spent: seq<CommitPos>): set<nat> {
    set y | y in spent :: y.pos
  }

  /** The state with a block taken back. */
  ghost function Rewound(s: State, b: Block, spent: seq<CommitPos>, size: nat): State
    requires size <= |s.data|
  {
    State(s.data[..size], Below(s.unspent, size) + Positions(spent),
          Restored(s.index - Commitments(b.outputs), b.inputs, spent))
  }

  function Restored(index: map<Commitment, CommitPos>, inputs: seq<Output>, spent: seq<CommitPos>)
    : map<Commitment, CommitPos>
    decreases |spent|
  {
    if inputs == [] || spent == [] then index
    else Restored(index[inputs[0].commit := spent[0]], inputs[1..], spent[1..])
  }

  /** The block spends none of its own outputs. */
  ghost predicate SpendsOld(b: Block) {
    Commitments(b.inputs) !! Commitments(b.outputs)
  }

  lemma {:induction false} AddedShape(s: State, outputs: seq<Output>, height: nat)
    requires Distinct(outputs)
    ensures var t := Added(s, outputs, height);
            && t.data == s.data + outputs
            && (forall p :: p in t.unspent <==> p in s.unspent || |s.data| <= p < |s.data| + |outputs|)
            && (forall c :: c in t.index <==> c in s.index || c in Commitments(outputs))
            && (forall c :: c in s.index && c !in Commitments(outputs) ==> t.index[c] == s.index[c])
            && (forall i :: 0 <= i < |outputs| ==>
                  outputs[i].commit in t.index && t.index[outputs[i].commit] == CommitPos(|s.data| + i, height))
  {
    hide Commitments;
    if outputs == [] {
      assert s.data + outputs == s.data;
      NoCommitments();
    } else {
      var init := outputs[..|outputs| - 1];
      AddedShape(s, init, height);
      CommitmentsMore(init, outputs[|outputs| - 1]);
      assert outputs == init + [outputs[|outputs| - 1]];
    }
  }

  lemma NoCommitments()
    ensures Commitments([]) == {}
  {
  }

  lemma CommitmentsMore(outputs: seq<Output>, o: Output)
    ensures Commitments(outputs + [o]) == Commitments(outputs) + {o.commit}
  {
    forall c ensures c in Commitments(outputs + [o]) <==> c in Commitments(outputs) || c == o.commit {
      if c in Commitments(outputs) {
        var x :| x in outputs && x.commit == c;
        assert x in outputs + [o];
      }
      if c == o.commit { assert o in outputs + [o]; }
    }
  }

  lemma CommitmentsAt(outputs: seq<Output>, c: Commitment)
    ensures c in Commitments(outputs) <==> exists i :: 0 <= i < |outputs| && outputs[i].commit == c
  {
    if c in Commitments(outputs) {
      var o :| o in outputs && o.commit == c;
    }
    forall i | 0 <= i < |outputs| && outputs[i].commit == c ensures c in Commitments(outputs) {
      assert outputs[i] in outputs;
    }
  }

  lemma AddedIndexed(s: State, outputs: seq<Output>, height: nat)
    requires Indexed(s) && Distinct(outputs) && forall o :: o in outputs ==> o.commit !in s.index
    ensures Indexed(Added(s, outputs, height))
  {
    hide Added;
    var t := Added(s, outputs, height);
    AddedShape(s, outputs, height);
    forall p | p in t.unspent ensures p < |t.data| && Points(t.index, t.data[p].commit, p) {
      if p in s.unspent {
        CommitmentsAt(outputs, s.data[p].commit);
        assert forall i :: 0 <= i < |outputs| ==> outputs[i] in outputs;
      } else {
        assert t.data[p] == outputs[p - |s.data|];
      }
    }
    forall c | c in t.index
      ensures t.index[c].pos in t.unspent && t.index[c].pos < |t.data| && t.data[t.index[c].pos].commit == c {
      if c in Commitments(outputs) {
        CommitmentsAt(outputs, c);
        var i :| 0 <= i < |outputs| && outputs[i].commit == c;
        assert t.index[c] == CommitPos(|s.data| + i, height);
      }
    }
  }

  /** Spending keeps the index exact: what goes from one goes from the other. */
  lemma SpentIndexed(s: State, inputs: seq<Output>)
    requires Indexed(s) && forall i :: i in inputs ==> Spends(s, i)
    ensures Indexed(Spent(s, inputs))
  {
    var t := Spent(s, inputs);
    forall p | p in t.unspent ensures Points(t.index, t.data[p].commit, p) {
      var c := s.data[p].commit;
      assert Points(s.index, c, p);
      forall i | i in inputs ensures i.commit != c {
        assert s.index[i.commit].pos in SpentPositions(s, inputs);
      }
    }
    forall c | c in t.index ensures t.index[c].pos in t.unspent {
      forall i | i in inputs ensures s.index[i.commit].pos != s.index[c].pos {
        assert i.commit in Commitments(inputs);
      }
    }
  }

  /** A block that applies keeps the index exact. */
  lemma AppliedIndexed(s: State, b: Block)
    requires Indexed(s) && Applies(s, b)
    ensures Indexed(Applied(s, b))
  {
    hide Added, Spent, Indexed;
    AddedIndexed(s, b.outputs, b.height);
    SpentIndexed(Added(s, b.outputs, b.height), b.inputs);
  }

  lemma {:induction false} RestoredShape(index: map<Commitment, CommitPos>, inputs: seq<Output>, spent: seq<CommitPos>)
    requires Distinct(inputs) && |spent| == |inputs|
    ensures var r := Restored(index, inputs, spent);
            && (forall c :: c in r <==> c in index || c in Commitments(inputs))
            && (forall c :: c in index && c !in Commitments(inputs) ==> r[c] == index[c])
            && (forall i :: 0 <= i < |inputs| ==> inputs[i].commit in r && r[inputs[i].commit] == spent[i])
    decreases |spent|
  {
    if inputs != [] {
      var first, rest := inputs[0], inputs[1..];
      RestoredShape(index[first.commit := spent[0]], rest, spent[1..]);
      CommitmentsLess(inputs);
      forall i | 0 <= i < |inputs|
        ensures inputs[i].commit in Restored(index, inputs, spent)
                && Restored(index, inputs, spent)[inputs[i].commit] == spent[i]
      {
        if i > 0 {
          assert rest[i - 1] == inputs[i] && spent[1..][i - 1] == spent[i];
        } else {
          CommitmentsAt(rest, first.commit);
        }
      }
    }
  }

  lemma CommitmentsLess(outputs: seq<Output>)
    requires outputs != []
    ensures Commitments(outputs) == Commitments(outputs[1..]) + {outputs[0].commit}
  {
    forall c ensures c in Commitments(outputs) <==> c in Commitments(outputs[1..]) || c == outputs[0].commit {
      CommitmentsAt(outputs, c);
      CommitmentsAt(outputs[1..], c);
      forall i | 0 <= i < |outputs| - 1 ensures outputs[1..][i] == outputs[i + 1] {
      }
      if exists i :: 0 <= i < |outputs| && outputs[i].commit == c {
        var i :| 0 <= i < |outputs| && outputs[i].commit == c;
        if i > 0 { assert outputs[1..][i - 1].commit == c; }
      }
    }
  }

  /** Of the old outputs, a block spends the same whether or not its own are there. */
  lemma SpentOld(s: State, b: Block, spent: seq<CommitPos>)
    requires Indexed(s) && Applies(s, b) && Keeps(s, b, spent) && SpendsOld(b)
    ensures forall i :: 0 <= i < |spent| ==> b.inputs[i].commit in s.index && spent[i] == s.index[b.inputs[i].commit]
  {
    hide Added;
    AddedShape(s, b.outputs, b.height);
    forall i | 0 <= i < |spent| ensures b.inputs[i].commit in s.index && spent[i] == s.index[b.inputs[i].commit] {
      CommitmentsAt(b.inputs, b.inputs[i].commit);
    }
  }

  lemma UndoesIndex(s: State, b: Block, spent: seq<CommitPos>)
    requires Indexed(s) && Applies(s, b) && Keeps(s, b, spent) && SpendsOld(b)
    ensures |s.data| <= |Applied(s, b).data|
    ensures Rewound(Applied(s, b), b, spent, |s.data|).index == s.index
  {
    hide Added, Indexed;
    var grown := Added(s, b.outputs, b.height);
    AddedShape(s, b.outputs, b.height);
    SpentOld(s, b, spent);
    var left := grown.index - Commitments(b.inputs) - Commitments(b.outputs);
    var r := Restored(left, b.inputs, spent);
    RestoredShape(left, b.inputs, spent);
    forall c ensures c in r <==> c in s.index {
      CommitmentsAt(b.inputs, c);
      NewCommitment(s, b, c);
    }
    forall c | c in r ensures r[c] == s.index[c] {
      CommitmentsAt(b.inputs, c);
    }
  }

  lemma NewCommitment(s: State, b: Block, c: Commitment)
    requires Applies(s, b)
    ensures c in Commitments(b.outputs) ==> c !in s.index
  {
    hide Added;
    if c in Commitments(b.outputs) {
      var o :| o in b.outputs && o.commit == c;
    }
  }

  lemma UndoesUnspent(s: State, b: Block, spent: seq<CommitPos>)
    requires Indexed(s) && Applies(s, b) && Keeps(s, b, spent) && SpendsOld(b)
    ensures |s.data| <= |Applied(s, b).data|
    ensures Rewound(Applied(s, b), b, spent, |s.data|).unspent == s.unspent
  {
    hide Added;
    var grown := Added(s, b.outputs, b.height);
    AddedShape(s, b.outputs, b.height);
    SpentOld(s, b, spent);
    var t := Applied(s, b);
    forall p ensures p in SpentPositions(grown, b.inputs) <==> exists i :: 0 <= i < |spent| && spent[i].pos == p {
      if p in SpentPositions(grown, b.inputs) {
        var x :| x in b.inputs && x.commit in grown.index && grown.index[x.commit].pos == p;
        var i :| 0 <= i < |b.inputs| && b.inputs[i] == x;
        assert spent[i].pos == p;
      }
      forall i | 0 <= i < |spent| && spent[i].pos == p ensures p in SpentPositions(grown, b.inputs) {
        assert b.inputs[i] in b.inputs;
      }
    }
    forall p ensures p in Rewound(t, b, spent, |s.data|).unspent <==> p in s.unspent {
      if p in s.unspent && p !in t.unspent {
        var i :| 0 <= i < |spent| && spent[i].pos == p;
        assert spent[i] in spent;
      }
      forall y | y in spent ensures y.pos in s.unspent {
        var i :| 0 <= i < |spent| && spent[i] == y;
      }
    }
  }

  /**
   Rewinding a block restores the state before it, reused commitments included, if and only if the
   block spends none of its own outputs.
   */
  lemma RewindUndoes(s: State, b: Block, spent: seq<CommitPos>)
    requires Indexed(s) && Applies(s, b) && Keeps(s, b, spent)
    ensures |s.data| <= |Applied(s, b).data|
    ensures Rewound(Applied(s, b), b, spent, |s.data|) == s <==> SpendsOld(b)
  {
    hide Indexed, Added, Keeps;
    AddedShape(s, b.outputs, b.height);
    if SpendsOld(b) {
      UndoesIndex(s, b, spent);
      UndoesUnspent(s, b, spent);
    } else {
      var c :| c in Commitments(b.inputs) && c in Commitments(b.outputs);
      NewCommitment(s, b, c);
      OwnSpendStays(s, b, spent, c);
    }
  }

  /** The own output of a rewound block would stay in the index. */
  lemma OwnSpendStays(s: State, b: Block, spent: seq<CommitPos>, c: Commitment)
    requires Applies(s, b) && Keeps(s, b, spent) && c in Commitments(b.inputs)
    ensures |s.data| <= |Applied(s, b).data|
    ensures c in Rewound(Applied(s, b), b, spent, |s.data|).index
  {
    hide Added;
    AddedShape(s, b.outputs, b.height);
    RestoredShape(Applied(s, b).index - Commitments(b.outputs), b.inputs, spent);
  }

  lemma AddedStep(s: State, outputs: seq<Output>, height: nat, i: nat)
    requires i < |outputs|
    ensures var before := Added(s, outputs[..i], height);
            Added(s, outputs[..i + 1], height) ==
            State(before.data + [outputs[i]], before.unspent + {|before.data|},
                  before.index[outputs[i].commit := CommitPos(|before.data|, height)])
  {
    assert outputs[..i + 1][..i] == outputs[..i];
  }

  /** A commitment that is in the index already stops the block. */
  lemma StopsBlock(s: State, outputs: seq<Output>, height: nat, i: nat)
    requires i < |outputs| && Distinct(outputs[..i]) && outputs[i].commit in Added(s, outputs[..i], height).index
    ensures !(Distinct(outputs) && forall o :: o in outputs ==> o.commit !in s.index)
  {
    hide Added;
    AddedShape(s, outputs[..i], height);
    CommitmentsAt(outputs[..i], outputs[i].commit);
    assert outputs[i] in outputs;
  }

  lemma NextOutput(s: State, outputs: seq<Output>, height: nat, i: nat)
    requires i < |outputs| && Distinct(outputs[..i]) && outputs[i].commit !in Added(s, outputs[..i], height).index
    requires forall o :: o in outputs[..i] ==> o.commit !in s.index
    ensures Distinct(outputs[..i + 1]) && forall o :: o in outputs[..i + 1] ==> o.commit !in s.index
  {
    hide Added;
    AddedShape(s, outputs[..i], height);
    CommitmentsAt(outputs[..i], outputs[i].commit);
    assert outputs[..i + 1] == outputs[..i] + [outputs[i]];
    forall j | 0 <= j < i ensures outputs[..i][j].commit != outputs[i].commit {
    }
  }

  lemma SpentStep(s: State, inputs: seq<Output>, i: nat)
    requires i < |inputs| && inputs[i].commit in s.index
    ensures var before := Spent(s, inputs[..i]);
            Spent(s, inputs[..i + 1]) ==
            State(s.data, before.unspent - {s.index[inputs[i].commit].pos}, before.index - {inputs[i].commit})
  {
    assert inputs[..i + 1] == inputs[..i] + [inputs[i]];
    CommitmentsMore(inputs[..i], inputs[i]);
    forall p ensures p in SpentPositions(s, inputs[..i + 1]) <==>
        p in SpentPositions(s, inputs[..i]) || p == s.index[inputs[i].commit].pos {
      if p in SpentPositions(s, inputs[..i]) {
        var x :| x in inputs[..i] && x.commit in s.index && s.index[x.commit].pos == p;
        assert x in inputs[..i + 1];
      }
      assert inputs[i] in inputs[..i + 1];
    }
  }

  /** The next input is found, unspent and as named, exactly if it is one more input naming an unspent output. */
  lemma NextInput(s: State, inputs: seq<Output>, i: nat)
    requires Indexed(s) && i < |inputs| && Distinct(inputs[..i]) && forall x :: x in inputs[..i] ==> Spends(s, x)
    ensures var before, c := Spent(s, inputs[..i]), inputs[i].commit;
            && (c in before.index ==>
                  && before.index[c] == s.index[c]
                  && before.index[c].pos in before.unspent && before.index[c].pos < |s.data|)
            && (c in before.index && s.data[before.index[c].pos] == inputs[i] <==>
                Distinct(inputs[..i + 1]) && forall x :: x in inputs[..i + 1] ==> Spends(s, x))
  {
    SpentIndexed(s, inputs[..i]);
    var c, more := inputs[i].commit, inputs[..i + 1];
    CommitmentsAt(inputs[..i], c);
    assert more == inputs[..i] + [inputs[i]];
    if c in Spent(s, inputs[..i]).index && s.data[s.index[c].pos] == inputs[i] {
      forall j, k | 0 <= j < k < |more| ensures more[j].commit != more[k].commit {
        assert more[j] == inputs[..i][j];
        if k < i { assert more[k] == inputs[..i][k]; }
      }
    }
    if Distinct(more) && forall x :: x in more ==> Spends(s, x) {
      assert inputs[i] in more;
      forall j | 0 <= j < i ensures inputs[..i][j].commit != c {
        assert more[j] == inputs[..i][j] && more[i] == inputs[i];
      }
    }
  }

  lemma NothingYet(s: State, outputs: seq<Output>, height: nat)
    ensures Added(s, outputs[..0], height) == s && Distinct(outputs[..0]) && Spent(s, outputs[..0]) == s
  {
    NoCommitments();
    assert s.index - {} == s.index;
    assert SpentPositions(s, []) == {};
  }

  /** A repeated input, or one that names nothing unspent, stops the block. */
  lemma FewerInputs(s: State, inputs: seq<Output>, n: nat)
    requires n <= |inputs| && Distinct(inputs) && forall x :: x in inputs ==> Spends(s, x)
    ensures Distinct(inputs[..n]) && forall x :: x in inputs[..n] ==> Spends(s, x)
  {
  }

  class OutputIndex {
    var data: seq<Output>
    var unspent: set<nat>
    var index: map<Commitment, CommitPos>
    var spentIndex: map<BlockHash, seq<CommitPos>>

    ghost function Now(): State
      reads this
    {
      State(data, unspent, index)
    }

    constructor ()
      ensures Now() == State([], {}, map[]) && spentIndex == map[] && Indexed(Now())
    {
      data, unspent, index, spentIndex := [], {}, map[], map[];
    }

    /** Adds an output unless its commitment is that of an unspent one. */
    method ApplyOutput(out: Output) returns (pos: nat, ok: bool)
      requires Indexed(Now())
      modifies this`data, this`unspent
      ensures ok <==> out.commit !in index
      ensures ok ==> pos == |old(data)| && data == old(data) + [out] && unspent == old(unspent) + {pos}
      ensures !ok ==> data == old(data) && unspent == old(unspent)
    {
      pos := |data|;
      if out.commit in index {
        var at := index[out.commit].pos;
        if at in unspent && data[at].commit == out.commit {
          return pos, false;
        }
      }
      data := data + [out];
      unspent := unspent + {pos};
      ok := true;
    }

    /** Adds the outputs of a block and enters them in the index. */
    method AddOutputs(b: Block) returns (ok: bool)
      requires Indexed(Now())
      modifies this`data, this`unspent, this`index
      ensures ok <==> Distinct(b.outputs) && forall o :: o in b.outputs ==> o.commit !in old(index)
      ensures ok ==> Now() == Added(old(Now()), b.outputs, b.height) && Indexed(Now())
    {
      hide Indexed, Added, Distinct;
      ghost var s := Now();
      NothingYet(s, b.outputs, b.height);
      for i := 0 to |b.outputs|
        invariant Now() == Added(s, b.outputs[..i], b.height) && Indexed(Now())
        invariant Distinct(b.outputs[..i]) && forall o :: o in b.outputs[..i] ==> o.commit !in s.index
      {
        if b.outputs[i].commit in index {
          StopsBlock(s, b.outputs, b.height, i);
        } else {
          NextOutput(s, b.outputs, b.height, i);
        }
        var pos, added := ApplyOutput(b.outputs[i]);
        if !added {
          return false;
        }
        index := index[b.outputs[i].commit := CommitPos(pos, b.height)];
        AddedStep(s, b.outputs, b.height, i);
        AddedIndexed(s, b.outputs[..i + 1], b.height);
      }
      assert b.outputs[..|b.outputs|] == b.outputs;
      ok := true;
    }

    /** Spends an input, found by its commitment: it has to be there, as named, and unspent. */
    method ApplyInput(input: Output) returns (spent: CommitPos, ok: bool)
      requires input.commit in index ==> index[input.commit].pos < |data|
      modifies this`unspent
      ensures ok <==>
                && input.commit in index
                && old(index[input.commit].pos in unspent && data[index[input.commit].pos] == input)
      ensures ok ==> spent == index[input.commit] && unspent == old(unspent) - {spent.pos}
      ensures !ok ==> unspent == old(unspent)
    {
      spent := CommitPos(0, 0);
      if input.commit !in index {
        return spent, false;
      }
      spent := index[input.commit];
      if spent.pos in unspent && data[spent.pos] != input {
        return spent, false;
      }
      if spent.pos !in unspent {
        return spent, false;
      }
      unspent := unspent - {spent.pos};
      ok := true;
    }

    /** Spends the inputs of a block, takes them out of the index and returns where they were. */
    method SpendInputs(inputs: seq<Output>) returns (spent: seq<CommitPos>, ok: bool)
      requires Indexed(Now())
      modifies this`unspent, this`index
      ensures ok <==> Distinct(inputs) && forall x :: x in inputs ==> Spends(old(Now()), x)
      ensures ok ==> Now() == Spent(old(Now()), inputs) && Indexed(Now())
      ensures ok ==> |spent| == |inputs|
      ensures ok ==> forall i :: 0 <= i < |inputs| ==>
                inputs[i].commit in old(index) && spent[i] == old(index)[inputs[i].commit]
    {
      hide Indexed, Spent, Spends, Distinct;
      ghost var s := Now();
      spent := [];
      NothingYet(s, inputs, 0);
      for i := 0 to |inputs|
        invariant Now() == Spent(s, inputs[..i]) && |spent| == i && data == s.data
        invariant Distinct(inputs[..i]) && forall x :: x in inputs[..i] ==> Spends(s, x)
        invariant forall j :: 0 <= j < i ==> inputs[j].commit in s.index && spent[j] == s.index[inputs[j].commit]
      {
        NextInput(s, inputs, i);
        if Distinct(inputs) && forall x :: x in inputs ==> Spends(s, x) { FewerInputs(s, inputs, i + 1); }
        var at, found := ApplyInput(inputs[i]);
        if !found {
          return spent, false;
        }
        assert inputs[i] in inputs[..i + 1];
        Named(s, inputs[i]);
        SpentStep(s, inputs, i);
        index := index - {inputs[i].commit};
        spent := spent + [at];
      }
      assert inputs[..|inputs|] == inputs;
      SpentIndexed(s, inputs);
      ok := true;
    }

    /** Applies a block: outputs first, then inputs, which are found by their commitment. */
    method ApplyBlock(b: Block) returns (ok: bool)
      requires Indexed(Now())
      modifies this
      ensures ok <==> Applies(old(Now()), b)
      ensures ok ==> Now() == Applied(old(Now()), b) && Indexed(Now())
      ensures ok ==>
                && b.hash in spentIndex && Keeps(old(Now()), b, spentIndex[b.hash])
                && spentIndex == old(spentIndex)[b.hash := spentIndex[b.hash]]
    {
      hide Indexed, Added, Spent, Spends, Distinct;
      var added := AddOutputs(b);
      if !added {
        return false;
      }
      var spent;
      spent, ok := SpendInputs(b.inputs);
      if ok {
        spentIndex := spentIndex[b.hash := spent];
      }
    }

    /** Takes a block back: its outputs go, with their entries, and the entries of its inputs come again. */
    method RewindSingleBlock(b: Block, size: nat)
      requires b.hash in spentIndex && size <= |data| && |spentIndex[b.hash]| == |b.inputs|
      modifies this`data, this`unspent, this`index
      ensures Now() == Rewound(old(Now()), b, spentIndex[b.hash], size)
    {
      var spent := spentIndex[b.hash];
      data := data[..size];
      unspent := Below(unspent, size) + Positions(spent);
      ghost var before := index;
      for i := 0 to |b.outputs|
        modifies this`index
        invariant index == before - Commitments(b.outputs[..i])
      {
        assert b.outputs[..i + 1] == b.outputs[..i] + [b.outputs[i]];
        CommitmentsMore(b.outputs[..i], b.outputs[i]);
        index := index - {b.outputs[i].commit};
      }
      assert b.outputs[..|b.outputs|] == b.outputs;
      ghost var target := Restored(index, b.inputs, spent);
      for i := 0 to |b.inputs|
        modifies this`index
        invariant Restored(index, b.inputs[i..], spent[i..]) == target
      {
        assert b.inputs[i..][1..] == b.inputs[i + 1..] && spent[i..][1..] == spent[i + 1..];
        index := index[b.inputs[i].commit := spent[i]];
      }
      assert b.inputs[|b.inputs|..] == [];
    }

    /** Rewinds block by block to any state the applied blocks went through. */
    method RewindTo(blocks: seq<Block>, sizes: seq<nat>, height: nat, ghost states: seq<State>)
      requires History(states, blocks, spentIndex) && Now() == states[|blocks|] && height <= |blocks|
      requires |sizes| == |states| && forall i :: 0 <= i < |states| ==> sizes[i] == |states[i].data|
      modifies this`data, this`unspent, this`index
      ensures Now() == states[height]
    {
      hide Indexed, Applies, Applied, Keeps, SpendsOld, Rewound;
      var current := |blocks|;
      while current > height
        invariant height <= current <= |blocks| && Now() == states[current]
      {
        current := current - 1;
        assert Passed(states, blocks, spentIndex, current);
        KeepsAll(states[current], blocks[current], spentIndex[blocks[current].hash]);
        RewindUndoes(states[current], blocks[current], spentIndex[blocks[current].hash]);
        RewindSingleBlock(blocks[current], sizes[current]);
      }
    }
  }

  /** The block at a height was applied, spending no output of its own, and what it spent is remembered. */
  ghost predicate Passed(states: seq<State>, blocks: seq<Block>, spentIndex: map<BlockHash, seq<CommitPos>>, i: nat)
    requires i < |blocks| && |states| == |blocks| + 1
  {
    var s, b := states[i], blocks[i];
    && Indexed(s) && Applies(s, b) && SpendsOld(b) && states[i + 1] == Applied(s, b)
    && b.hash in spentIndex && Keeps(s, b, spentIndex[b.hash])
  }

  ghost predicate History(states: seq<State>, blocks: seq<Block>, spentIndex: map<BlockHash, seq<CommitPos>>) {
    |states| == |blocks| + 1 && forall i :: 0 <= i < |blocks| ==> Passed(states, blocks, spentIndex, i)
  }

  lemma KeepsAll(s: State, b: Block, spent: seq<CommitPos>)
    requires Keeps(s, b, spent)
    ensures |spent| == |b.inputs|
  {
  }

  /** Nothing here stops a block from spending its own output. */
  lemma OwnOutputSpent(o: Output)
    ensures var b := Block(1, 1, [o], [o]); Applies(State([], {}, map[]), b) && !SpendsOld(b)
  {
    var s, b := State([], {}, map[]), Block(1, 1, [o], [o]);
    AddedShape(s, [o], 1);
    assert o in b.inputs && o in b.outputs;
    assert o.commit in Commitments(b.inputs) && o.commit in Commitments(b.outputs);
    assert [o][0].commit in Added(s, [o], 1).index;
  }

  lemma Named(s: State, x: Output)
    requires Spends(s, x)
    ensures x.commit in s.index
  {
  }

  /** Applying a block that spends no output of its own, under a hash not used before, makes the history one longer. */
  lemma HistoryGrows(
      states: seq<State>, blocks: seq<Block>, spentIndex: map<BlockHash, seq<CommitPos>>, b: Block,
      spent: seq<CommitPos>)
    requires History(states, blocks, spentIndex) && Indexed(states[|blocks|])
    requires Applies(states[|blocks|], b) && SpendsOld(b) && Keeps(states[|blocks|], b, spent)
    requires forall i :: 0 <= i < |blocks| ==> blocks[i].hash != b.hash
    ensures History(states + [Applied(states[|blocks|], b)], blocks + [b], spentIndex[b.hash := spent])
  {
    hide Indexed, Applies, Applied, Keeps, SpendsOld;
    var more, all, index := states + [Applied(states[|blocks|], b)], blocks + [b], spentIndex[b.hash := spent];
    forall i | 0 <= i < |all| ensures Passed(more, all, index, i) {
      if i < |blocks| { assert Passed(states, blocks, spentIndex, i); }
    }
  }
}
