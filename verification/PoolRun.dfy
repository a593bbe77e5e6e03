/** The two pools driven from empty through any run of transactions, blocks and replays. */
module PoolRuns {
  import opened Aggregation
  import opened Pools
  import opened PoolOutputs
  import opened TransactionPools

  /** A transaction offered, a block that brings a new chain state, or the replay after a reorganisation. */
  datatype Step =
    | Offer(src: Source, tx: Tx, stem: bool, at: int, relayed: bool)
    | Arrive(block: Block, state: State)
    | Replay

  /** The limits of the pools. */
  datatype Limits = Limits(pool: nat, stem: nat)

  ghost predicate Entitled(intake: Intake, limits: Limits, c: Content, tx: Tx, stem: bool, state: State) {
    && (stem || tx !in TxsOf(c.txpool))
    && (stem ==> |c.txpool| <= limits.pool && |c.stempool| <= limits.stem)
    && (|c.txpool| <= limits.pool ==> intake.paysEnough(tx))
    && intake.admissible(state, tx)
  }

  /** What a step makes of the pools, with every entry. */
  ghost function Next(rules: Rules, intake: Intake, limits: Limits, c: Content, state: State, step: Step): Content {
    match step
    case Offer(src, tx, stem, at, relayed) =>
      var e := Entry(tx, src, at);
      var joins := stem && Joins(rules, state, c.stempool, TxsOf(c.txpool), e);
      var joined := if joins then c.(stempool := c.stempool + [e]) else c;
      if !Entitled(intake, limits, c, tx, stem, state) then c
      else if joins && relayed then joined
      else if !Publishable(rules, intake, state, joined, e) then joined
      else
        var after, all := Published(rules, intake, state, joined, e), c.cache + [e];
        Content(
          if |c.txpool| > limits.pool then Evicted(intake, after.txpool) else after.txpool, after.stempool,
          if |all| > limits.pool then all[1..] else all)
    case Arrive(block, newState) =>
      var pool := Kept(rules, newState, Retained(c.txpool, block), []);
      Content(pool, Kept(rules, newState, Retained(c.stempool, block), Counted(pool)), c.cache)
    case Replay => PublishedAll(rules, intake, state, c, c.cache)
  }

  ghost function After(rules: Rules, intake: Intake, limits: Limits, start: State, script: seq<Step>): Content {
    if script == [] then Content([], [], [])
    else
      var n := |script| - 1;
      Next(rules, intake, limits, After(rules, intake, limits, start, script[..n]), StateAfter(start, script[..n]),
           script[n])
  }

  /**
   What is promised: everything; after a transaction was given up, only that no output is created
   twice; and nothing about that any more once something was added before the next block came.
   */
  datatype Standing = Sure | JustEvicted | Unsure

  ghost predicate Promised(pools: TransactionPool, state: State, standing: Standing)
    reads pools, pools.txpool, pools.stempool
  {
    && pools.Separate()
    && (standing == Sure ==> pools.Joint(state) && (pools.Screened() ==> pools.KeptApart(state)))
    && (standing == JustEvicted && pools.Screened() ==> pools.AllDifferent())
  }

  /** All transactions of such pools are valid as one list. */
  lemma SureIsTogether(pools: TransactionPool, state: State)
    requires Promised(pools, state, Sure) && pools.Screened() && pools.stempool.entries != []
    ensures ValidTogether(pools.rules, state, TxsOf(pools.stempool.entries) + TxsOf(pools.txpool.entries))
  {
    hide Apart, JointlyValid, Clean, Strict;
    ApartIsTogether(pools.rules, state, pools.txpool.entries, pools.stempool.entries);
  }

  /** One step. It evicts only where a public transaction comes to a pool over its size. */
  method Perform(pools: TransactionPool, step: Step, state: State, standing: Standing)
    returns (after: State, next: Standing, evicted: bool)
    requires Promised(pools, state, standing)
    modifies pools, pools.txpool, pools.stempool
    ensures Promised(pools, after, next)
    ensures after == if step.Arrive? then step.state else state
    ensures evicted ==> step.Offer? && !step.stem && |old(pools.txpool.entries)| > pools.maxPoolSize
    ensures standing == Sure && !evicted ==> next == Sure
    ensures standing == Sure && evicted ==> next == JustEvicted
    ensures standing == JustEvicted && step.Arrive? ==> next == Sure
    ensures !step.Replay? ==> |pools.txpool.entries| <= |old(pools.txpool.entries)| + 1
    ensures var limits := Limits(pools.maxPoolSize, pools.maxStempoolSize);
            pools.Now() == Next(pools.rules, pools.intake, limits, old(pools.Now()), state, step)
  {
    hide JointlyValid, Apart, Clean, Strict, DistinctOutputs, Sum, Offered, Evicted, Joins, Kept, Subsequence;
    hide SharesNothing, TransactionPool.Screened;
    after, next, evicted := state, standing, false;
    ghost var before := pools.txpool.entries;
    match step
    case Offer(src, tx, stem, at, relayed) =>
      var full := !stem && |pools.txpool.entries| > pools.maxPoolSize;
      var r := pools.AddToPool(src, tx, stem, at, relayed, state);
      evicted := full && r.Ok?;
      next := if standing == Sure then (if evicted then JustEvicted else Sure) else Unsure;
      OneMore(pools.intake, before, Entry(tx, src, at));
    case Arrive(block, newState) =>
      if standing == Sure { ApartDiffers(pools, state); }
      after := newState;
      pools.ReconcileBlock(block, newState);
      NoMore(pools.rules, newState, before, block);
      next := if standing == Unsure then Unsure else Sure;
    case Replay =>
      pools.ReconcileReorgCache(state);
      next := if standing == Sure then Sure else Unsure;
  }

  lemma OneMore(intake: Intake, entries: seq<Entry>, e: Entry)
    ensures var offer := Offered(intake, entries, e);
            offer.Some? ==> |Evicted(intake, entries + [offer.value])| <= |entries| + 1
  {
    hide Offered;
    var offer := Offered(intake, entries, e);
    if offer.Some? && intake.leastWorth(entries + [offer.value]).Some? {
      var all, tx := entries + [offer.value], intake.leastWorth(entries + [offer.value]).value;
      DroppedIsSubsequence(all, tx);
      SubsequenceIsShorter(Dropped(all, tx), all);
    }
  }

  lemma NoMore(rules: Rules, state: State, entries: seq<Entry>, block: Block)
    ensures |Kept(rules, state, Retained(entries, block), [])| <= |entries|
  {
    RetainedIsSubsequence(entries, block);
    SubsequenceIsShorter(Retained(entries, block), entries);
    KeptIsSubsequence(rules, state, Retained(entries, block), []);
    SubsequenceIsShorter(Kept(rules, state, Retained(entries, block), []), Retained(entries, block));
  }

  lemma {:induction false} SubsequenceIsShorter(s: seq<Entry>, t: seq<Entry>)
    requires Subsequence(s, t)
    ensures |s| <= |t|
    decreases |t|
  {
    if s != [] {
      if Subsequence(s, t[..|t| - 1]) {
        SubsequenceIsShorter(s, t[..|t| - 1]);
      } else {
        SubsequenceIsShorter(s[..|s| - 1], t[..|t| - 1]);
      }
    }
  }

  lemma ApartDiffers(pools: TransactionPool, state: State)
    requires Promised(pools, state, Sure)
    ensures pools.Screened() ==> pools.AllDifferent()
  {
    hide JointlyValid, Clean, Strict, DistinctOutputs, Sum, Valid;
  }

  /**
   From empty pools through any run without eviction the two pools are jointly valid in the chain
   state of the moment and, all transactions being checked, no output in them is created twice.
   */
  method Run(rules: Rules, intake: Intake, maxPool: nat, maxStem: nat, start: State, script: seq<Step>)
    returns (pools: TransactionPool, state: State, evictions: nat)
    ensures fresh(pools) && pools.rules == rules && pools.intake == intake
    ensures state == StateAfter(start, script)
    ensures pools.Now() == After(rules, intake, Limits(maxPool, maxStem), start, script)
    ensures evictions == 0 ==> pools.Joint(state) && (pools.Screened() ==> pools.KeptApart(state))
    ensures |script| <= maxPool && (forall i :: 0 <= i < |script| ==> !script[i].Replay?) ==> evictions == 0
  {
    hide JointlyValid, Apart, Clean, Strict, TransactionPool.Screened, Next;
    pools := new TransactionPool(rules, intake, maxPool, maxStem);
    state, evictions := start, 0;
    var standing := Sure;
    assert pools.Joint(start);
    for i := 0 to |script|
      invariant fresh(pools) && fresh(pools.txpool) && fresh(pools.stempool)
      invariant pools.rules == rules && pools.intake == intake
      invariant Promised(pools, state, standing) && state == StateAfter(start, script[..i])
      invariant evictions == 0 ==> standing == Sure
      invariant pools.maxPoolSize == maxPool && pools.maxStempoolSize == maxStem
      invariant pools.Now() == After(rules, intake, Limits(maxPool, maxStem), start, script[..i])
      invariant (forall j :: 0 <= j < i ==> !script[j].Replay?) ==> |pools.txpool.entries| <= i
      invariant i <= maxPool && (forall j :: 0 <= j < i ==> !script[j].Replay?) ==> evictions == 0
    {
      assert script[..i + 1][..i] == script[..i];
      var evicted;
      state, standing, evicted := Perform(pools, script[i], state, standing);
      if evicted {
        evictions := evictions + 1;
      }
    }
    assert script[..|script|] == script;
  }

  ghost function StateAfter(start: State, script: seq<Step>): State {
    if script == [] then start
    else
      var last := script[|script| - 1];
      if last.Arrive? then last.state else StateAfter(start, script[..|script| - 1])
  }
}
