/** One pool of transactions: entries are accepted, and kept, only if all of them together are valid. */
module Pools {
  import opened Options
  import opened Aggregation

  datatype Source = Broadcast | Deaggregated
  datatype Entry = Entry(tx: Tx, src: Source, at: int)
  datatype Block = Block(inputs: set<Commitment>, kernels: set<int>)

  /** A chain state: the head and the unspent outputs that go with it. */
  type State = int

  /** The checks of a transaction by itself, without weight limit, and against a chain state; what is unspent in it. */
  datatype Rules = Rules(sound: Tx -> bool, fits: (State, Tx) -> bool, unspent: (State, Commitment) -> bool)

  predicate Valid(rules: Rules, state: State, tx: Tx) {
    rules.sound(tx) && rules.fits(state, tx)
  }

  /** All of them aggregate, and to something valid. */
  predicate ValidTogether(rules: Rules, state: State, txs: seq<Tx>) {
    var sum := Aggregate(txs);
    sum.Some? && Valid(rules, state, sum.value)
  }

  function TxsOf(entries: seq<Entry>): (txs: seq<Tx>)
    ensures |txs| == |entries|
  {
    seq(|entries|, i requires 0 <= i < |entries| => entries[i].tx)
  }

  lemma TxsMore(entries: seq<Entry>, e: Entry)
    ensures TxsOf(entries + [e]) == TxsOf(entries) + [e.tx]
  {
  }

  /** Whether an entry may join a pool, given other transactions to be counted in. */
  predicate Joins(rules: Rules, state: State, entries: seq<Entry>, extra: seq<Tx>, e: Entry) {
    e.tx !in TxsOf(entries) && ValidTogether(rules, state, TxsOf(entries) + extra + [e.tx])
  }

  /** What is left after every entry in turn has had to join again. */
  function Kept(rules: Rules, state: State, entries: seq<Entry>, extra: seq<Tx>): seq<Entry> {
    if entries == [] then []
    else
      var before, e := Kept(rules, state, entries[..|entries| - 1], extra), entries[|entries| - 1];
      if Joins(rules, state, before, extra, e) then before + [e] else before
  }

  lemma KeptStep(rules: Rules, state: State, entries: seq<Entry>, extra: seq<Tx>, i: nat)
    requires i < |entries|
    ensures
      var before := Kept(rules, state, entries[..i], extra);
      Kept(rules, state, entries[..i + 1], extra) ==
      if Joins(rules, state, before, extra, entries[i]) then before + [entries[i]] else before
  {
    assert entries[..i + 1][..i] == entries[..i];
  }

  /** In the order of `entries`, with some left out. */
  ghost predicate Subsequence<T>(kept: seq<T>, entries: seq<T>) {
    if kept == [] then true
    else if entries == [] then false
    else
      || (kept[|kept| - 1] == entries[|entries| - 1] && Subsequence(kept[..|kept| - 1], entries[..|entries| - 1]))
      || Subsequence(kept, entries[..|entries| - 1])
  }

  lemma {:induction false} WholeIsSubsequence(s: seq<Entry>)
    ensures Subsequence(s, s)
  {
    if s != [] { WholeIsSubsequence(s[..|s| - 1]); }
  }

  lemma {:induction false} SubsequenceHolds(s: seq<Entry>, t: seq<Entry>)
    requires Subsequence(s, t)
    ensures forall e :: e in s ==> e in t
  {
    if s != [] {
      var init := t[..|t| - 1];
      assert t == init + [t[|t| - 1]] && s == s[..|s| - 1] + [s[|s| - 1]];
      if Subsequence(s, init) {
        SubsequenceHolds(s, init);
      } else {
        SubsequenceHolds(s[..|s| - 1], init);
      }
    }
  }

  lemma {:induction false} SubsequenceOfSubsequence(a: seq<Entry>, b: seq<Entry>, c: seq<Entry>)
    requires Subsequence(a, b) && Subsequence(b, c)
    ensures Subsequence(a, c)
    decreases |b| + |c|
  {
    if a != [] {
      var b', c' := b[..|b| - 1], c[..|c| - 1];
      if Subsequence(b, c') {
        SubsequenceOfSubsequence(a, b, c');
      } else if Subsequence(a, b') {
        SubsequenceOfSubsequence(a, b', c');
      } else {
        SubsequenceOfSubsequence(a[..|a| - 1], b', c');
      }
    }
  }

  lemma {:induction false} KeptIsSubsequence(rules: Rules, state: State, entries: seq<Entry>, extra: seq<Tx>)
    ensures Subsequence(Kept(rules, state, entries, extra), entries)
  {
    if entries != [] {
      KeptIsSubsequence(rules, state, entries[..|entries| - 1], extra);
      var before := Kept(rules, state, entries[..|entries| - 1], extra);
      var e := entries[|entries| - 1];
      assert (before + [e])[..|before|] == before;
    }
  }

  /** What is kept is valid together with what was counted in. */
  lemma {:induction false} KeptIsValid(rules: Rules, state: State, entries: seq<Entry>, extra: seq<Tx>)
    ensures var kept := Kept(rules, state, entries, extra);
            kept != [] ==> ValidTogether(rules, state, TxsOf(kept) + extra)
  {
    if entries != [] {
      var init, e := entries[..|entries| - 1], entries[|entries| - 1];
      KeptIsValid(rules, state, init, extra);
      var before := Kept(rules, state, init, extra);
      if Joins(rules, state, before, extra, e) { JoinedIsValid(rules, state, before, extra, e); }
    }
  }

  lemma JoinedIsValid(rules: Rules, state: State, entries: seq<Entry>, extra: seq<Tx>, e: Entry)
    requires Joins(rules, state, entries, extra, e)
    ensures ValidTogether(rules, state, TxsOf(entries + [e]) + extra)
  {
    hide Aggregate, Valid;
    TxsMore(entries, e);
    AggregateSwaps(TxsOf(entries), extra, [e.tx]);
  }

  /** Keeping again in the same state keeps everything. */
  lemma {:induction false} KeptStays(rules: Rules, state: State, entries: seq<Entry>, extra: seq<Tx>)
    ensures var kept := Kept(rules, state, entries, extra); Kept(rules, state, kept, extra) == kept
  {
    hide Joins;
    if entries != [] {
      var before := Kept(rules, state, entries[..|entries| - 1], extra);
      KeptStays(rules, state, entries[..|entries| - 1], extra);
      assert (before + [entries[|entries| - 1]])[..|before|] == before;
    }
  }

  /** The transactions that can be mined: each has to be valid, and light enough, with those before it. */
  function Picked(rules: Rules, state: State, light: Tx -> bool, txs: seq<Tx>, extra: seq<Tx>): Option<seq<Tx>> {
    if txs == [] then Some([])
    else match Picked(rules, state, light, txs[..|txs| - 1], extra)
      case None => None
      case Some(before) =>
        var tx := txs[|txs| - 1];
        match Aggregate(extra + before + [tx])
        case None => None
        case Some(sum) => Some(if light(sum) && Valid(rules, state, sum) then before + [tx] else before)
  }

  /** What can be mined comes in the order given, and its aggregate is valid and light enough. */
  lemma {:induction false} PickedIsValid(rules: Rules, state: State, light: Tx -> bool, txs: seq<Tx>, extra: seq<Tx>)
    requires Picked(rules, state, light, txs, extra).Some?
    ensures var picked := Picked(rules, state, light, txs, extra).value;
            && Subsequence(picked, txs)
            && (picked != [] ==>
                  var sum := Aggregate(extra + picked);
                  sum.Some? && light(sum.value) && Valid(rules, state, sum.value))
  {
    hide Aggregate, Valid;
    if txs != [] {
      PickedIsValid(rules, state, light, txs[..|txs| - 1], extra);
      var before, tx := Picked(rules, state, light, txs[..|txs| - 1], extra).value, txs[|txs| - 1];
      assert (before + [tx])[..|before|] == before;
      assert extra + before + [tx] == extra + (before + [tx]);
    }
  }

  lemma PickedStep(rules: Rules, state: State, light: Tx -> bool, txs: seq<Tx>, extra: seq<Tx>, i: nat)
    requires i < |txs| && Picked(rules, state, light, txs[..i], extra).Some?
    ensures
      var before := Picked(rules, state, light, txs[..i], extra).value;
      Picked(rules, state, light, txs[..i + 1], extra) ==
      match Aggregate(extra + before + [txs[i]])
      case None => None
      case Some(sum) => Some(if light(sum) && Valid(rules, state, sum) then before + [txs[i]] else before)
  {
    assert txs[..i + 1][..i] == txs[..i];
  }

  lemma {:induction false} PickedFails(rules: Rules, state: State, light: Tx -> bool, txs: seq<Tx>, extra: seq<Tx>,
      i: nat)
    requires i <= |txs| && Picked(rules, state, light, txs[..i], extra).None?
    ensures Picked(rules, state, light, txs, extra).None?
    decreases |txs|
  {
    if i < |txs| {
      assert txs[..|txs| - 1][..i] == txs[..i];
      PickedFails(rules, state, light, txs[..|txs| - 1], extra, i);
    } else {
      assert txs[..i] == txs;
    }
  }

  /** Nothing of an entry is in the block: no kernel, no input. */
  predicate Untouched(e: Entry, block: Block) {
    && (forall k | k in e.tx.kernels :: k !in block.kernels)
    && (forall c | c in e.tx.inputs :: c !in block.inputs)
  }

  ghost predicate SharesNothing(e: Entry, block: Block) {
    (forall k :: e.tx.kernels[k] > 0 ==> k !in block.kernels) && forall c :: e.tx.inputs[c] > 0 ==> c !in block.inputs
  }

  lemma UntouchedMeans(e: Entry, block: Block)
    ensures Untouched(e, block) <==> SharesNothing(e, block)
  {
  }

  function Retained(entries: seq<Entry>, block: Block): (kept: seq<Entry>)
    ensures forall e :: e in kept <==> e in entries && SharesNothing(e, block)
  {
    if entries == [] then []
    else
      var before, e := Retained(entries[..|entries| - 1], block), entries[|entries| - 1];
      assert entries == entries[..|entries| - 1] + [e];
      UntouchedMeans(e, block);
      if Untouched(e, block) then before + [e] else before
  }

  lemma {:induction false} RetainedIsSubsequence(entries: seq<Entry>, block: Block)
    ensures Subsequence(Retained(entries, block), entries)
  {
    hide Untouched, SharesNothing;
    if entries != [] {
      var init, e := entries[..|entries| - 1], entries[|entries| - 1];
      RetainedIsSubsequence(init, block);
      assert (Retained(init, block) + [e])[..|Retained(init, block)|] == Retained(init, block);
    }
  }

  datatype PoolError = DuplicateTx | Invalid | OverCapacity | LowFee
  datatype Outcome = Ok | Err(error: PoolError)

  class Pool {
    const rules: Rules
    var entries: seq<Entry>

    constructor (r: Rules)
      ensures rules == r && entries == []
    {
      rules, entries := r, [];
    }

    /** Adds an entry if everything together with it is valid. */
    method AddToPool(e: Entry, extra: seq<Tx>, state: State) returns (r: Outcome)
      modifies this
      ensures r.Ok? <==> Joins(rules, state, old(entries), extra, e)
      ensures r.Ok? ==> entries == old(entries) + [e]
      ensures r.Err? ==> entries == old(entries)
      ensures r == Err(DuplicateTx) <==> e.tx in TxsOf(old(entries))
      ensures r.Err? ==> r.error == DuplicateTx || r.error == Invalid
    {
      var txs := TxsOf(entries);
      if e.tx in txs {
        return Err(DuplicateTx);
      }
      txs := txs + extra;
      var sum: Option<Tx>;
      if txs == [] {
        sum := Some(e.tx);
        assert txs + [e.tx] == [e.tx];
      } else {
        sum := Aggregate(txs + [e.tx]);
      }
      match sum {
        case None => return Err(Invalid);
        case Some(tx) =>
          if !Valid(rules, state, tx) {
            return Err(Invalid);
          }
          entries := entries + [e];
          return Ok;
      }
    }

    /** Picks the transactions that are valid on top of each other; a failing aggregation ends it. */
    method ValidateRawTxs(txs: seq<Tx>, extra: Option<Tx>, state: State, light: Tx -> bool) returns (r: Option<seq<Tx>>)
      ensures r == Picked(rules, state, light, txs, if extra.Some? then [extra.value] else [])
    {
      hide Aggregate, Valid;
      var extras := if extra.Some? then [extra.value] else [];
      var picked: seq<Tx> := [];
      for i := 0 to |txs|
        invariant Picked(rules, state, light, txs[..i], extras) == Some(picked)
      {
        PickedStep(rules, state, light, txs, extras, i);
        var sum := Aggregate(extras + picked + [txs[i]]);
        match sum {
          case None =>
            PickedFails(rules, state, light, txs, extras, i + 1);
            return None;
          case Some(tx) =>
            if light(tx) && Valid(rules, state, tx) {
              picked := picked + [txs[i]];
            }
        }
      }
      assert txs[..|txs|] == txs;
      r := Some(picked);
    }

    /** Empties the pool and lets the entries join again, in their order. */
    method Reconcile(extra: Option<Tx>, state: State)
      modifies this
      ensures entries == Kept(rules, state, old(entries), if extra.Some? then [extra.value] else [])
    {
      var existing := entries;
      entries := [];
      var extras := if extra.Some? then [extra.value] else [];
      for i := 0 to |existing|
        invariant entries == Kept(rules, state, existing[..i], extras)
      {
        KeptStep(rules, state, existing, extras, i);
        var _ := AddToPool(existing[i], extras, state);
      }
      assert existing[..|existing|] == existing;
    }

    /** Drops what the block has made obsolete. */
    method ReconcileBlock(block: Block)
      modifies this
      ensures entries == Retained(old(entries), block)
    {
      entries := Retained(entries, block);
    }

    /** The whole pool as one transaction, if it has any and they aggregate soundly. */
    method AllTransactionsAggregate() returns (ok: bool, tx: Option<Tx>)
      ensures entries == [] ==> ok && tx == None
      ensures entries != [] ==>
                && (ok <==> Aggregate(TxsOf(entries)).Some? && rules.sound(Aggregate(TxsOf(entries)).value))
                && (ok ==> tx == Aggregate(TxsOf(entries)) && StandsFor(tx.value, TxsOf(entries)))
    {
      if entries == [] {
        return true, None;
      }
      hide StandsFor;
      tx := Aggregate(TxsOf(entries));
      if tx.Some? { AggregateKeeps(TxsOf(entries)); }
      ok := tx.Some? && rules.sound(tx.value);
    }
  }
}
