/** The public pool and the stem pool, which has to stay valid on top of the public one. */
module TransactionPools {
  import opened Options
  import opened Aggregation
  import opened Pools
  import opened PoolOutputs

  /** What is asked of a transaction on its way in; splitting one by transactions already held. */
  datatype Intake = Intake(
    paysEnough: Tx -> bool, admissible: (State, Tx) -> bool, soundAsTx: Tx -> bool,
    deaggregate: (Tx, seq<Tx>) -> Option<Tx>, leastWorth: seq<Entry> -> Option<Tx>)

  /** The held transactions all of whose kernels are among the given ones. */
  function Matching(entries: seq<Entry>, kernels: multiset<int>): (txs: seq<Tx>)
    ensures forall tx :: tx in txs <==> tx in TxsOf(entries) && forall k :: tx.kernels[k] > 0 ==> kernels[k] > 0
  {
    if entries == [] then []
    else
      var before, tx := Matching(entries[..|entries| - 1], kernels), entries[|entries| - 1].tx;
      assert entries == entries[..|entries| - 1] + [entries[|entries| - 1]];
      TxsMore(entries[..|entries| - 1], entries[|entries| - 1]);
      if forall k | k in tx.kernels :: k in kernels then before + [tx] else before
  }

  /** The entry as it is offered to the public pool. */
  function Offered(intake: Intake, entries: seq<Entry>, e: Entry): (r: Option<Entry>)
    ensures |e.tx.kernels| <= 1 || Matching(entries, e.tx.kernels) == [] ==> r == Some(e)
    ensures |e.tx.kernels| > 1 && Matching(entries, e.tx.kernels) != [] ==>
              var part := intake.deaggregate(e.tx, Matching(entries, e.tx.kernels));
              && (r.Some? <==> part.Some? && intake.soundAsTx(part.value))
              && (r.Some? ==> r.value == Entry(part.value, Deaggregated, e.at))
  {
    var txs := Matching(entries, e.tx.kernels);
    if |e.tx.kernels| <= 1 || txs == [] then Some(e)
    else match intake.deaggregate(e.tx, txs)
      case None => None
      case Some(tx) => if intake.soundAsTx(tx) then Some(e.(tx := tx, src := Deaggregated)) else None
  }

  function Dropped(entries: seq<Entry>, tx: Tx): (kept: seq<Entry>)
    ensures forall e :: e in kept <==> e in entries && e.tx != tx
  {
    if entries == [] then []
    else
      var before, e := Dropped(entries[..|entries| - 1], tx), entries[|entries| - 1];
      assert entries == entries[..|entries| - 1] + [e];
      if e.tx != tx then before + [e] else before
  }

  function Evicted(intake: Intake, entries: seq<Entry>): seq<Entry> {
    var tx := intake.leastWorth(entries);
    if tx.Some? then Dropped(entries, tx.value) else entries
  }

  /** What the two pools hold, and what is remembered for a replay. */
  datatype Content = Content(txpool: seq<Entry>, stempool: seq<Entry>, cache: seq<Entry>)

  /** What is counted in when the stem pool is let in again. */
  ghost function Counted(pool: seq<Entry>): seq<Tx> {
    var sum := Aggregate(TxsOf(pool));
    if pool == [] || sum.None? then [] else [sum.value]
  }

  ghost predicate Publishable(rules: Rules, intake: Intake, state: State, c: Content, e: Entry) {
    var offer := Offered(intake, c.txpool, e);
    offer.Some? && Joins(rules, state, c.txpool, [], offer.value)
  }

  /** An entry offered to the public pool: if it joins, the stem pool is let in again over the pool with it. */
  ghost function Published(rules: Rules, intake: Intake, state: State, c: Content, e: Entry): Content {
    if Publishable(rules, intake, state, c, e) then
      var pool := c.txpool + [Offered(intake, c.txpool, e).value];
      c.(txpool := pool, stempool := Kept(rules, state, c.stempool, Counted(pool)))
    else c
  }

  ghost function PublishedAll(rules: Rules, intake: Intake, state: State, c: Content, cache: seq<Entry>): Content {
    if cache == [] then c
    else
      Published(rules, intake, state, PublishedAll(rules, intake, state, c, cache[..|cache| - 1]), cache[|cache| - 1])
  }

  /** The public pool after entries have been offered to it one by one. */
  ghost function Replayed(rules: Rules, intake: Intake, state: State, pool: seq<Entry>, cache: seq<Entry>): seq<Entry> {
    if cache == [] then pool
    else
      var before := Replayed(rules, intake, state, pool, cache[..|cache| - 1]);
      var offer := Offered(intake, before, cache[|cache| - 1]);
      if offer.Some? && Joins(rules, state, before, [], offer.value) then before + [offer.value] else before
  }

  /** Every remembered entry that is valid over the public pool in its turn is in it afterwards. */
  lemma {:induction false} ReplayLetsIn(
      rules: Rules, intake: Intake, state: State, pool: seq<Entry>, cache: seq<Entry>, i: nat)
    requires i < |cache|
    requires var before := Replayed(rules, intake, state, pool, cache[..i]);
             var offer := Offered(intake, before, cache[i]);
             offer.Some? && Joins(rules, state, before, [], offer.value)
    ensures var before := Replayed(rules, intake, state, pool, cache[..i]);
            Offered(intake, before, cache[i]).value in Replayed(rules, intake, state, pool, cache)
    decreases |cache|
  {
    hide Joins, Offered, Replayed;
    var n := |cache| - 1;
    ReplayStep(rules, intake, state, pool, cache);
    if i < n {
      assert cache[..n][..i] == cache[..i];
      ReplayLetsIn(rules, intake, state, pool, cache[..n], i);
    }
  }

  lemma ReplayStep(rules: Rules, intake: Intake, state: State, pool: seq<Entry>, cache: seq<Entry>)
    requires cache != []
    ensures var before := Replayed(rules, intake, state, pool, cache[..|cache| - 1]);
            var offer := Offered(intake, before, cache[|cache| - 1]);
            var after := Replayed(rules, intake, state, pool, cache);
            before <= after && (offer.Some? && Joins(rules, state, before, [], offer.value) ==> offer.value in after)
  {
  }

  /**
   The public pool is valid as one transaction. So is what it and the stem pool come to; and they are
   valid as one list of transactions exactly if the stem pool creates nothing again that the public
   pool has created and spent.
   */
  ghost predicate JointlyValid(rules: Rules, state: State, txpool: seq<Entry>, stempool: seq<Entry>) {
    && (txpool != [] ==> ValidTogether(rules, state, TxsOf(txpool)))
    && (stempool != [] ==>
          && Valid(rules, state, Net(TxsOf(stempool) + TxsOf(txpool)))
          && (ValidTogether(rules, state, TxsOf(stempool) + TxsOf(txpool)) <==>
            NothingReused(TxsOf(stempool), TxsOf(txpool))))
  }

  /** The stem pool let in again over the aggregate of a valid public pool is valid with that pool. */
  lemma StemIsValid(rules: Rules, state: State, txpool: seq<Entry>, stem: seq<Entry>)
    requires txpool != [] ==> ValidTogether(rules, state, TxsOf(txpool))
    ensures var extra := if txpool == [] then [] else [Aggregate(TxsOf(txpool)).value];
            JointlyValid(rules, state, txpool, Kept(rules, state, stem, extra))
  {
    hide Net, Kept, Aggregate, Valid, NothingReused;
    var txs := TxsOf(txpool);
    var extra := if txpool == [] then [] else [Aggregate(txs).value];
    KeptIsValid(rules, state, stem, extra);
    var kept := TxsOf(Kept(rules, state, stem, extra));
    if kept != [] {
      AggregateIsNet(kept + extra);
      if txpool == [] {
        assert txs == extra;
        NoPool(kept);
      } else {
        AggregateIsNet(txs);
        NetWithAggregate(kept, txs);
        AggregateOverPool(kept, txs);
        if Aggregate(kept + txs).Some? { AggregateIsNet(kept + txs); }
      }
    }
  }

  lemma NoPool(stem: seq<Tx>)
    ensures NothingReused(stem, [])
  {
  }

  /** Joining over the transactions themselves is stronger. */
  lemma StemJoinIsValid(rules: Rules, state: State, txpool: seq<Entry>, stem: seq<Entry>, e: Entry)
    requires Joins(rules, state, stem, TxsOf(txpool), e)
    ensures var txs := TxsOf(stem + [e]);
            && ValidTogether(rules, state, txs + TxsOf(txpool)) && NothingReused(txs, TxsOf(txpool))
            && Valid(rules, state, Net(txs + TxsOf(txpool)))
  {
    hide Net, Valid, NothingReused, Aggregate;
    JoinedIsValid(rules, state, stem, TxsOf(txpool), e);
    AggregateIsNet(TxsOf(stem + [e]) + TxsOf(txpool));
    AggregatedReusesNothing(TxsOf(stem + [e]), TxsOf(txpool));
  }

  /** Where no output is created twice, none is created again after it has been spent. */
  lemma DifferentReusesNothing(stem: seq<Tx>, pool: seq<Tx>)
    requires DistinctOutputs(Sum(stem + pool))
    ensures NothingReused(stem, pool)
  {
    hide Sum;
    SumOfBoth(stem, pool);
    var s, p := Sum(stem).outputs, Sum(pool).outputs;
    forall c ensures c !in s * (Sum(pool).inputs * p) {
      assert c in s + p ==> (s + p)[c] == 1;
    }
  }

  lemma AggregatedReusesNothing(stem: seq<Tx>, pool: seq<Tx>)
    requires Aggregate(stem + pool).Some? && stem != []
    ensures NothingReused(stem, pool)
  {
    if |pool| > 1 { DifferentReusesNothing(stem, pool); }
  }

  class TransactionPool {
    const rules: Rules
    const intake: Intake
    const txpool: Pool
    const stempool: Pool
    const maxPoolSize: nat
    const maxStempoolSize: nat
    var reorgCache: seq<Entry>

    ghost predicate Separate() {
      txpool != stempool && txpool.rules == rules && stempool.rules == rules
    }

    ghost predicate Joint(state: State)
      reads this, txpool, stempool
    {
      Separate() && JointlyValid(rules, state, txpool.entries, stempool.entries)
    }

    /** Whatever is let in has no output twice and spends none of its own, and the rules check as much. */
    ghost predicate Screened() {
      && Strict(rules)
      && (forall state, tx | intake.admissible(state, tx) :: Clean(tx))
      && (forall tx | intake.soundAsTx(tx) :: Clean(tx))
    }

    /** The pools and what is remembered are clean, and no output is created twice. */
    ghost predicate AllDifferent()
      reads this, txpool, stempool
    {
      && AllClean(txpool.entries) && AllClean(stempool.entries) && AllClean(reorgCache)
      && DistinctOutputs(Sum(TxsOf(stempool.entries) + TxsOf(txpool.entries)))
    }

    /** Nothing in the stem pool creates again what the public pool has created and spent. */
    ghost predicate KeptApart(state: State)
      reads this, txpool, stempool
    {
      Apart(rules, state, txpool.entries, stempool.entries) && AllClean(reorgCache)
    }

    function Now(): Content
      reads this, txpool, stempool
    {
      Content(txpool.entries, stempool.entries, reorgCache)
    }

    /** New where it has to be, with room or something given up for it, worth its fee, and valid by itself. */
    predicate MayEnter(tx: Tx, stem: bool, state: State)
      reads this, txpool, stempool
    {
      && (stem || tx !in TxsOf(txpool.entries))
      && (stem ==> |txpool.entries| <= maxPoolSize && |stempool.entries| <= maxStempoolSize)
      && (|txpool.entries| <= maxPoolSize ==> intake.paysEnough(tx))
      && intake.admissible(state, tx)
    }

    predicate JoinsStem(e: Entry, state: State)
      reads this, txpool, stempool
    {
      Joins(rules, state, stempool.entries, TxsOf(txpool.entries), e)
    }

    /** As it is offered, it is valid with the public pool. */
    predicate JoinsPublic(e: Entry, state: State)
      reads this, txpool
    {
      var offer := Offered(intake, txpool.entries, e);
      offer.Some? && Joins(rules, state, txpool.entries, [], offer.value)
    }

    constructor (r: Rules, i: Intake, maxPool: nat, maxStem: nat)
      ensures forall state :: Joint(state) && KeptApart(state)
      ensures fresh(txpool) && fresh(stempool) && txpool.entries == stempool.entries == reorgCache == []
      ensures rules == r && intake == i && maxPoolSize == maxPool && maxStempoolSize == maxStem
    {
      rules, intake, maxPoolSize, maxStempoolSize, reorgCache := r, i, maxPool, maxStem, [];
      txpool := new Pool(r);
      stempool := new Pool(r);
    }

    method AddToStempool(e: Entry, state: State) returns (r: Outcome)
      requires Separate()
      modifies stempool
      ensures old(Joint(state)) ==> Joint(state)
      ensures r.Ok? <==> Joins(rules, state, old(stempool.entries), TxsOf(txpool.entries), e)
      ensures stempool.entries == if r.Ok? then old(stempool.entries) + [e] else old(stempool.entries)
      ensures Screened() && Clean(e.tx) && old(KeptApart(state)) ==> KeptApart(state)
    {
      hide Net, Joins, ValidTogether, Valid, NothingReused, Clean, Apart, Strict;
      ghost var stem := stempool.entries;
      r := stempool.AddToPool(e, TxsOf(txpool.entries), state);
      if r.Ok? {
        StemJoinIsValid(rules, state, txpool.entries, stem, e);
        if Screened() && Clean(e.tx) && Apart(rules, state, txpool.entries, stem) {
          StemGrows(rules, state, txpool.entries, stem, e);
        }
      }
    }

    /** Remembers an entry; the oldest goes when there are too many. */
    method AddToReorgCache(e: Entry)
      modifies this
      ensures var all := old(reorgCache) + [e]; reorgCache == if |all| > maxPoolSize then all[1..] else all
    {
      reorgCache := reorgCache + [e];
      if |reorgCache| > maxPoolSize {
        reorgCache := reorgCache[1..];
      }
    }

    /** Lets the stem pool in again over the public pool; the aggregate of a valid pool never fails. */
    method ReconcileStempool(state: State)
      requires Separate()
      requires txpool.entries != [] ==> ValidTogether(rules, state, TxsOf(txpool.entries))
      modifies stempool
      ensures Joint(state)
      ensures Subsequence(stempool.entries, old(stempool.entries))
      ensures stempool.entries == Kept(rules, state, old(stempool.entries), Counted(txpool.entries))
    {
      hide Net, Kept, Aggregate, Subsequence;
      ghost var stem := stempool.entries;
      var ok, tx := txpool.AllTransactionsAggregate();
      assert ok;
      StemIsValid(rules, state, txpool.entries, stem);
      KeptIsSubsequence(rules, state, stem, if tx.Some? then [tx.value] else []);
      stempool.Reconcile(tx, state);
    }

    /**
     Adds to the public pool and drops from the stem pool what no longer fits on top. If it succeeds
     the pools are jointly valid, whatever they were before.
     */
    method AddToTxpool(e: Entry, state: State) returns (r: Outcome)
      requires Separate()
      modifies txpool, stempool
      ensures r.Ok? ==> Joint(state)
      ensures var offer := Offered(intake, old(txpool.entries), e);
              && (r.Ok? <==> offer.Some? && Joins(rules, state, old(txpool.entries), [], offer.value))
              && (r.Ok? ==> txpool.entries == old(txpool.entries) + [offer.value])
      ensures r.Err? ==> txpool.entries == old(txpool.entries) && stempool.entries == old(stempool.entries)
      ensures r.Err? ==> r.error == DuplicateTx || r.error == Invalid
      ensures Now() == Published(rules, intake, state, old(Now()), e)
      ensures r.Ok? <==> Publishable(rules, intake, state, old(Now()), e)
      ensures Subsequence(stempool.entries, old(stempool.entries))
      ensures Screened() && Clean(e.tx) && old(Joint(state) && KeptApart(state)) ==> KeptApart(state)
    {
      hide Net, Joins, Subsequence, Valid, Matching, Clean, Apart, Strict, Kept, Aggregate;
      WholeIsSubsequence(stempool.entries);
      ghost var before := txpool.entries;
      var offer := Offered(intake, txpool.entries, e);
      match offer {
        case None => return Err(Invalid);
        case Some(entry) =>
          r := txpool.AddToPool(entry, [], state);
          if r.Err? {
            return;
          }
          PoolJoinIsValid(rules, state, before, entry);
          ghost var stem := stempool.entries;
          ReconcileStempool(state);
          if Screened() && Clean(e.tx) && old(Joint(state) && KeptApart(state)) {
            PoolGrows(rules, state, before, stem, entry);
          }
      }
    }

    /** Makes room by giving up the least worth transaction. */
    method EvictFromTxpool()
      requires Separate()
      modifies txpool
      ensures txpool.entries == Evicted(intake, old(txpool.entries))
      ensures old(AllDifferent()) ==> AllDifferent()
    {
      hide Clean, DistinctOutputs, Sum;
      if AllDifferent() { EvictedDiffers(intake, txpool.entries, stempool.entries); }
      var tx := intake.leastWorth(txpool.entries);
      if tx.Some? {
        txpool.entries := Dropped(txpool.entries, tx.value);
      }
    }

    /**
     Takes a transaction in, as stem if asked and possible and otherwise as public. An error leaves the
     public pool as it was, and unless the pool was overfull, so that something is given up for the
     newcomer, the pools stay jointly valid whatever comes of it.
     */
    method AddToPool(src: Source, tx: Tx, stem: bool, now: int, relayed: bool, state: State) returns (r: Outcome)
      requires Separate()
      modifies this, txpool, stempool
      ensures old(Joint(state)) && (|old(txpool.entries)| <= maxPoolSize || stem || r.Err?) ==> Joint(state)
      ensures r.Err? ==> txpool.entries == old(txpool.entries) && reorgCache == old(reorgCache)
      ensures r.Ok? ==> intake.admissible(state, tx) && (|old(txpool.entries)| <= maxPoolSize ==> intake.paysEnough(tx))
      ensures r.Ok? && !stem ==>
                var offer := Offered(intake, old(txpool.entries), Entry(tx, src, now));
                && offer.Some?
                && var all := old(txpool.entries) + [offer.value];
                   txpool.entries == if |old(txpool.entries)| <= maxPoolSize then all else Evicted(intake, all)
      ensures |old(txpool.entries)| <= maxPoolSize || stem || r.Err? ==>
                (Screened() && old(Joint(state) && KeptApart(state)) ==> KeptApart(state))
      ensures Screened() && old(Joint(state) && KeptApart(state)) ==> AllDifferent()
      ensures r == Err(OverCapacity) <==>
                stem && (|old(txpool.entries)| > maxPoolSize || |old(stempool.entries)| > maxStempoolSize)
      ensures r == Err(LowFee) <==>
                && (stem || tx !in TxsOf(old(txpool.entries)))
                && |old(txpool.entries)| <= maxPoolSize && (stem ==> |old(stempool.entries)| <= maxStempoolSize)
                && !intake.paysEnough(tx)
      ensures r.Ok? <==>
                && old(MayEnter(tx, stem, state))
                && (|| (stem && relayed && old(JoinsStem(Entry(tx, src, now), state)))
                    || old(JoinsPublic(Entry(tx, src, now), state)))
      ensures r.Ok? ==>
                if stem && relayed && old(JoinsStem(Entry(tx, src, now), state)) then reorgCache == old(reorgCache)
                else
                  var all := old(reorgCache) + [Entry(tx, src, now)];
                  reorgCache == if |all| > maxPoolSize then all[1..] else all
      ensures old(MayEnter(tx, stem, state)) ==>
                var e, before := Entry(tx, src, now), old(Now());
                var stemmed := before.(stempool := before.stempool + [e]);
                var joined := if stem && old(JoinsStem(e, state)) then stemmed else before;
                if stem && relayed && old(JoinsStem(e, state)) then Now() == joined
                else
                  var after := Published(rules, intake, state, joined, e);
                  && stempool.entries == after.stempool
                  && txpool.entries ==
                     if r.Ok? && |before.txpool| > maxPoolSize then Evicted(intake, after.txpool) else after.txpool
      ensures !old(MayEnter(tx, stem, state)) ==> Now() == old(Now())
      ensures r.Ok? && stem ==>
                var e := Entry(tx, src, now);
                if relayed && Joins(rules, state, old(stempool.entries), TxsOf(old(txpool.entries)), e) then
                  txpool.entries == old(txpool.entries) && stempool.entries == old(stempool.entries) + [e]
                else
                  var offer := Offered(intake, old(txpool.entries), e);
                  offer.Some? && txpool.entries == old(txpool.entries) + [offer.value]
    {
      hide Net, Joins, Subsequence, JointlyValid, Offered, Evicted, Clean, Strict, DistinctOutputs, Sum, Valid;
      if !stem && tx in TxsOf(txpool.entries) {
        return Err(DuplicateTx);
      }
      var evict := false;
      if |txpool.entries| > maxPoolSize || (stem && |stempool.entries| > maxStempoolSize) {
        if stem {
          return Err(OverCapacity);
        }
        evict := true;
      } else if !intake.paysEnough(tx) {
        return Err(LowFee);
      }
      if !intake.admissible(state, tx) {
        return Err(Invalid);
      }
      var e := Entry(tx, src, now);
      var fluff := !stem;
      if stem {
        r := AddToStempool(e, state);
        fluff := r.Err? || !relayed;
      }
      if fluff {
        r := AddToTxpool(e, state);
        if r.Err? {
          return;
        }
        AddToReorgCache(e);
      }
      if evict {
        EvictFromTxpool();
      }
      r := Ok;
    }

    /** Offers the remembered entries again. */
    method ReconcileReorgCache(state: State)
      requires Separate()
      modifies txpool, stempool
      ensures old(Joint(state)) ==> Joint(state)
      ensures Subsequence(stempool.entries, old(stempool.entries))
      ensures old(txpool.entries) <= txpool.entries
      ensures txpool.entries == Replayed(rules, intake, state, old(txpool.entries), reorgCache)
      ensures Now() == PublishedAll(rules, intake, state, old(Now()), reorgCache)
      ensures Screened() && old(Joint(state) && KeptApart(state)) ==> KeptApart(state)
    {
      hide Joins, JointlyValid, Offered, Clean, Apart, Strict;
      var entries := reorgCache;
      ghost var pool := txpool.entries;
      WholeIsSubsequence(stempool.entries);
      for i := 0 to |entries|
        invariant old(Joint(state)) ==> Joint(state)
        invariant Subsequence(stempool.entries, old(stempool.entries)) && pool <= txpool.entries
        invariant txpool.entries == Replayed(rules, intake, state, pool, entries[..i])
        invariant Now() == PublishedAll(rules, intake, state, old(Now()), entries[..i])
        invariant Screened() && old(Joint(state) && KeptApart(state)) ==> KeptApart(state)
      {
        ghost var stem := stempool.entries;
        assert entries[..i + 1][..i] == entries[..i];
        var _ := AddToTxpool(entries[i], state);
        SubsequenceOfSubsequence(stempool.entries, stem, old(stempool.entries));
      }
      assert entries[..|entries|] == entries;
    }

    /** A new block: whatever the pools were valid for before, they are jointly valid for its state. */
    method ReconcileBlock(block: Block, state: State)
      requires Separate()
      modifies txpool, stempool
      ensures Joint(state)
      ensures txpool.entries == Kept(rules, state, Retained(old(txpool.entries), block), [])
      ensures forall e :: e in txpool.entries || e in stempool.entries ==> SharesNothing(e, block)
      ensures Subsequence(stempool.entries, Retained(old(stempool.entries), block))
      ensures stempool.entries == Kept(rules, state, Retained(old(stempool.entries), block), Counted(txpool.entries))
      ensures Screened() && old(AllDifferent()) ==> KeptApart(state)
    {
      hide Net, Kept, Joins, Aggregate, Subsequence, SharesNothing, JointlyValid, Clean, Apart, Strict, DistinctOutputs;
      hide Valid;
      ghost var oldPool, oldStem := txpool.entries, stempool.entries;
      ghost var pool := Retained(txpool.entries, block);
      txpool.ReconcileBlock(block);
      KeptPoolIsValid(rules, state, pool);
      txpool.Reconcile(None, state);
      KeptIsSubsequence(rules, state, pool, []);
      ghost var stem := Retained(stempool.entries, block);
      stempool.ReconcileBlock(block);
      ReconcileStempool(state);
      SubsequenceHolds(txpool.entries, pool);
      SubsequenceHolds(stempool.entries, stem);
      if Screened() && old(AllDifferent()) {
        RetainedIsSubsequence(oldPool, block);
        RetainedIsSubsequence(oldStem, block);
        SubsequenceOfSubsequence(txpool.entries, pool, oldPool);
        NothingAggregates(txpool.entries);
        PartsAreApart(rules, state, oldPool, oldStem, txpool.entries, stem);
      }
    }
  }

  lemma {:induction false} DroppedIsSubsequence(entries: seq<Entry>, tx: Tx)
    ensures Subsequence(Dropped(entries, tx), entries)
  {
    if entries != [] {
      var init, e := entries[..|entries| - 1], entries[|entries| - 1];
      DroppedIsSubsequence(init, tx);
      assert (Dropped(init, tx) + [e])[..|Dropped(init, tx)|] == Dropped(init, tx);
    }
  }

  /** Giving something up creates nothing twice. */
  lemma EvictedDiffers(intake: Intake, pool: seq<Entry>, stem: seq<Entry>)
    requires AllClean(pool) && DistinctOutputs(Sum(TxsOf(stem) + TxsOf(pool)))
    ensures AllClean(Evicted(intake, pool)) && DistinctOutputs(Sum(TxsOf(stem) + TxsOf(Evicted(intake, pool))))
  {
    hide Clean, DistinctOutputs, Sum;
    var left := Evicted(intake, pool);
    if intake.leastWorth(pool).Some? {
      DroppedIsSubsequence(pool, intake.leastWorth(pool).value);
      DistinctAt(Sum(TxsOf(stem) + TxsOf(pool)));
      DistinctAt(Sum(TxsOf(stem) + TxsOf(left)));
      forall c ensures Sum(TxsOf(stem) + TxsOf(left)).outputs[c] <= 1 {
        PartOfSum(left, pool, c);
        SumAt(TxsOf(stem), TxsOf(pool), c);
        SumAt(TxsOf(stem), TxsOf(left), c);
      }
    }
  }

  lemma PoolJoinIsValid(rules: Rules, state: State, entries: seq<Entry>, e: Entry)
    requires Joins(rules, state, entries, [], e)
    ensures ValidTogether(rules, state, TxsOf(entries + [e]))
  {
    JoinedIsValid(rules, state, entries, [], e);
    assert TxsOf(entries + [e]) + [] == TxsOf(entries + [e]);
  }

  lemma KeptPoolIsValid(rules: Rules, state: State, entries: seq<Entry>)
    ensures var kept := Kept(rules, state, entries, []); kept != [] ==> ValidTogether(rules, state, TxsOf(kept))
  {
    KeptIsValid(rules, state, entries, []);
    var txs := TxsOf(Kept(rules, state, entries, []));
    assert txs + [] == txs;
  }
}
