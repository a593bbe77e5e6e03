/** Short histories: a rejected block that halts the chain, a root never checked, a fork judged by another's range. */
module ChainWitnesses {
  import opened Options
  import opened ChainTree
  import opened Difficulty
  import opened BlockRules
  import opened BlockPipe
  import opened ChainState
  import opened HeaderSync

  const WINDOW: nat := DIFFICULTY_ADJUST_WINDOW

  /** Fork hashes start here. */
  const FORK: nat := 10_000

  const GENESIS: Header := Header(0, -1, 0, 0, 0, 0)

  /** Everything passes but a body other than zero and a time that does not grow; new bits are the opening time. */
  function LenientRules(): Rules {
    Rules(_ => 0, _ => true, (h: Header, p: Header) => h.time > p.time, (_, _, _, first) => first, 0, _ => true,
          (b: Block) => b.body == 0, (_, _) => true, (_, _) => true, (s, _) => Some(s))
  }

  /** A stored block of a sound store has sums. */
  lemma StoredHasSums(rules: Rules, genesis: Header, start: Sums, db: Db, h: Header)
    requires Sound(rules, genesis, start, db) && HasBlock(db, h)
    ensures SumsTo(rules, db.headers, genesis, db.blocks, start, h).Some?
  {
    if h.height > 0 { assert BlockSound(rules, db.headers, genesis, db.blocks, start, h.hash); }
  }

  /** Under the lenient rules, what is asked of a block but for its bits. */
  ghost predicate Next(chain: Chain, b: Block)
    requires chain.Valid()
    reads chain
  {
    && !chain.Known(b.header.hash) && b.header.prevHash in chain.db.blocks && b.body == 0
    && var prev := chain.ParentOf(b.header);
    && b.header.height == prev.height + 1 && b.header.prevRoot == 0 && b.header.time > prev.time
    && (!StartsWindow(prev) ==> b.header.bits == prev.bits)
  }

  lemma LenientAccepts(chain: Chain, b: Block)
    requires chain.Valid() && chain.rules == LenientRules() && Next(chain, b)
    ensures chain.FollowsOwnBranch(b) <==>
              var prev := chain.ParentOf(b.header);
              BitsOk(chain.rules.nextBits, chain.db.headers, ChainTo(chain.db.headers, chain.genesis, prev), b.header,
                prev)
    ensures b.header.hash !in chain.db.headers ==>
              var prev := chain.ParentOf(b.header);
              (chain.Acceptable(b) <==>
               BitsOk(chain.rules.nextBits, chain.db.headers, chain.CheckedRange(b.header, prev), b.header, prev))
  {
    hide Tree, BlockTree, HeadersSound, BlocksSound, SumsSound, SumsAlong, ChainTo, SumsTo, Logged;
    hide FirstOfGreatestHeight, BitsOk;
    StoredHasSums(chain.rules, chain.genesis, chain.start, chain.db, chain.ParentOf(b.header));
  }

  const GOOD: Block := Block(Header(2, 0, 1, 0, 1, 0), 0)
  const BAD: Block := Block(Header(1, 0, 1, 0, 1, 0), 1)

  ghost predicate AtGenesis(chain: Chain)
    reads chain
  {
    && chain.Valid() && chain.rules == LenientRules()
    && chain.genesis == chain.head == chain.headerTip == GENESIS && chain.headerMmr == [0]
    && chain.db.headers == map[0 := GENESIS] && chain.db.blocks == map[0 := Block(GENESIS, 0)]
  }

  lemma GoodAtGenesis(chain: Chain)
    requires AtGenesis(chain)
    ensures chain.Acceptable(GOOD)
  {
    hide Sound, SumsAlong, Logged, FirstOfGreatestHeight;
    LenientAccepts(chain, GOOD);
  }

  lemma BadAtGenesis(chain: Chain)
    requires AtGenesis(chain)
    ensures !chain.Acceptable(BAD) && chain.Moves(BAD)
    ensures ChainTo(chain.db.headers, chain.genesis, chain.ParentOf(BAD.header)) == [0]
  {
    hide SumsAlong, Logged, FirstOfGreatestHeight;
  }

  /**
   A block with a good header and a bad body, on genesis. It is rejected and has moved the range to a
   header that is not stored; a good block is rejected after it and accepted without it.
   */
  method RejectedBlockHalts() returns (chain: Chain, bad: PipeResult, after: PipeResult, without: PipeResult)
    ensures bad.Rejected? && chain.headerMmr == [0, 1] && chain.db.headers == map[0 := GENESIS]
    ensures chain.StoreValid() && chain.Stuck()
    ensures after.Rejected? && without.Accepted?
  {
    hide LenientRules, Sound, SumsAlong, ChainTo, Logged, FirstOfGreatestHeight;
    hide Chain.Acceptable, Chain.Moves, Chain.StoreValid;
    var other := new Chain(LenientRules(), Block(GENESIS, 0), 0);
    GoodAtGenesis(other);
    without := other.ProcessBlock(GOOD);
    chain := new Chain(LenientRules(), Block(GENESIS, 0), 0);
    BadAtGenesis(chain);
    bad := chain.ProcessBlock(BAD);
    after := chain.ProcessBlock(GOOD);
  }

  /** The first commits to a chain that is not below it; the second, which is not its child, is the last. */
  const CHUNK: seq<Header> := [Header(1, 0, 1, 5, 1, 0), Header(2, 0, 1, 0, 1, 0)]

  lemma ChunkStores(headers: Headers)
    requires headers == map[0 := GENESIS]
    ensures Added(headers, CHUNK) == map[0 := GENESIS, 1 := CHUNK[0], 2 := CHUNK[1]]
    ensures Added(headers, CHUNK[..0]) == headers && Added(headers, CHUNK[..1]) == map[0 := GENESIS, 1 := CHUNK[0]]
  {
    assert CHUNK[..1] == [CHUNK[0]] && [CHUNK[0]][..0] == [] && CHUNK[..0] == [];
    assert Added(headers, [CHUNK[0]]) == Added(headers, [])[1 := CHUNK[0]];
    assert Added(headers, CHUNK) == Added(headers, CHUNK[..1])[2 := CHUNK[1]];
  }

  lemma ChunkPasses(chain: Chain, range: SyncRange)
    requires AtGenesis(chain) && range.At(chain.db.headers, GENESIS) && range.tip == GENESIS
    ensures range.Taking(chain, CHUNK) && !range.Seen(chain.db.headers, CHUNK)
    ensures NoClash(chain.db.headers, CHUNK)
  {
    hide Sound, SumsAlong, Logged, FirstOfGreatestHeight;
    var headers, batch := chain.db.headers, Added(chain.db.headers, CHUNK);
    ChunkStores(headers);
    assert range.mmr == [0];
    forall i | 0 <= i < |CHUNK| ensures HeaderValid(chain.rules, Added(headers, CHUNK[..i]), range.mmr, CHUNK[i]) {
      if i == 0 { assert CHUNK[..i] == CHUNK[..0]; } else { assert CHUNK[..i] == CHUNK[..1]; }
    }
    assert forall h :: h in batch ==> Hangs(batch, GENESIS, h);
    assert Previous(batch, GENESIS, CHUNK[1]) == GENESIS;
    assert ChainTo(batch, GENESIS, CHUNK[1]) == [0, 2];
    CommonIs([0], [0, 2], 1);
  }

  lemma FirstDoesNotCommit(rules: Rules, headers: Headers, batch: Headers)
    requires rules == LenientRules() && headers == map[0 := GENESIS] && batch == Added(headers, CHUNK)
    requires Taken(rules, GENESIS, headers, CHUNK, batch)
    ensures !AllCommit(rules, GENESIS, headers, CHUNK, batch)
  {
    ChunkStores(headers);
    assert Links(rules, batch, CHUNK[0]);
    assert !Commits(rules, GENESIS, batch, CHUNK[0]);
  }

  /** A chunk that is not one chain: it is taken, and a header whose root is wrong is stored with it. */
  method UncheckedRoot() returns (chain: Chain, ok: bool)
    ensures ok && chain.rules == LenientRules() && chain.genesis == GENESIS && CHUNK[0].hash in chain.db.headers
    ensures !chain.Running()
  {
    hide LenientRules, Sound, SumsAlong, ChainTo, Logged, FirstOfGreatestHeight, Added, Taken, AllCommit;
    hide Chain.Running, SyncRange.Taking, SyncRange.Seen, NoClash, Tree;
    chain := new Chain(LenientRules(), Block(GENESIS, 0), 0);
    var range := new SyncRange(GENESIS);
    ghost var headers := chain.db.headers;
    Started(chain, range);
    ChunkPasses(chain, range);
    ok := range.SyncChunk(chain, CHUNK);
    ChunkStores(headers);
    FirstDoesNotCommit(chain.rules, headers, chain.db.headers);
  }

  lemma Started(chain: Chain, range: SyncRange)
    requires AtGenesis(chain) && range.mmr == [0] && range.tip == GENESIS
    ensures chain.Running() && range.At(chain.db.headers, GENESIS)
  {
    hide Sound, SumsAlong, Logged, FirstOfGreatestHeight;
  }

  /** The chain the range is on: two windows and one header more, which opens the third. */
  function Main(k: nat): Header {
    if k == 0 then GENESIS else Header(k, k - 1, k, 0, k, if k == 2 * WINDOW then WINDOW else 0)
  }

  /** A fork from genesis with other times. */
  function Fork(k: nat): Header {
    if k == 0 then GENESIS else Header(FORK + k, if k == 1 then 0 else FORK + k - 1, k, 0, 2 * k, 0)
  }

  /** What is stored: the first `m` headers of the chain and the first `f` of the fork. */
  function Lookup(m: nat, f: nat, h: int): Option<Header> {
    if 0 <= h <= m && h < FORK then Some(Main(h))
    else if FORK < h <= FORK + f then Some(Fork(h - FORK))
    else None
  }

  ghost predicate Stores(db: Db, m: nat, f: nat) {
    && (forall h :: h in db.headers <==> Lookup(m, f, h).Some?)
    && (forall h :: h in db.headers ==> Some(db.headers[h]) == Lookup(m, f, h))
    && (forall h :: h in db.blocks <==> Lookup(m, f, h).Some?)
  }

  /** The range holds the hashes of the chain. */
  ghost predicate Counts(range: seq<Hash>, m: nat) {
    |range| == m + 1 && forall i :: 0 <= i <= m ==> range[i] == i
  }

  ghost predicate Grown(chain: Chain, m: nat, f: nat)
    reads chain
  {
    && chain.Valid() && chain.rules == LenientRules() && chain.genesis == GENESIS
    && m <= 2 * WINDOW && f < 2 * WINDOW
    && chain.head == chain.headerTip == Main(m)
    && Counts(chain.headerMmr, m) && Stores(chain.db, m, f)
  }

  lemma StoresMore(db: Db, m: nat, f: nat, b: Block, sums: map<Hash, Sums>)
    requires Stores(db, m, f) && m <= 2 * WINDOW && f < 2 * WINDOW
    ensures m < 2 * WINDOW && b.header == Main(m + 1) ==>
              Stores(Db(db.headers[b.header.hash := b.header], db.blocks[b.header.hash := b], sums), m + 1, f)
    ensures b.header == Fork(f + 1) ==>
              Stores(Db(db.headers[b.header.hash := b.header], db.blocks[b.header.hash := b], sums), m, f + 1)
  {
  }

  lemma Windows(k: nat)
    requires k < 2 * WINDOW
    ensures (k + 1) % WINDOW == 0 <==> k + 1 == WINDOW || k + 1 == 2 * WINDOW
  {
    if k + 1 < WINDOW {
    } else if k + 1 < 2 * WINDOW {
      assert (k + 1) % WINDOW == k + 1 - WINDOW;
    }
  }

  lemma MainBits(db: Db, range: seq<Hash>, m: nat, f: nat)
    requires Stores(db, m, f) && m < 2 * WINDOW && |range| > m && Counts(range[..m + 1], m)
    ensures BitsOk(LenientRules().nextBits, db.headers, range, Main(m + 1), Main(m))
  {
    Windows(m);
    if StartsWindow(Main(m)) {
      var start := StartHeight(Main(m));
      assert range[start] == range[..m + 1][start] == start;
      assert Lookup(m, f, start).Some?;
    }
  }

  lemma ForkBits(db: Db, range: seq<Hash>, f: nat)
    requires Stores(db, 2 * WINDOW, f) && f + 1 < 2 * WINDOW && Counts(range, 2 * WINDOW)
    ensures BitsOk(LenientRules().nextBits, db.headers, range, Fork(f + 1), Fork(f))
  {
    Windows(f);
    if StartsWindow(Fork(f)) {
      assert StartHeight(Fork(f)) == 0 && range[0] == 0;
      assert Lookup(2 * WINDOW, f, 0).Some?;
    }
  }

  /** The next header of the chain is accepted and moves the range. */
  lemma MainNext(chain: Chain, m: nat)
    requires Grown(chain, m, 0) && m < 2 * WINDOW
    ensures var b := Block(Main(m + 1), 0);
            chain.Acceptable(b) && chain.Moves(b) && chain.ParentOf(b.header) == Main(m)
  {
    hide Sound, SumsAlong, ChainTo, Logged, FirstOfGreatestHeight, BitsOk, Counts, Tree;
    var b := Block(Main(m + 1), 0);
    assert Lookup(m, 0, m + 1).None? && Lookup(m, 0, m) == Some(Main(m)) && Lookup(m, 0, -1).None?;
    var range := chain.headerMmr + [b.header.hash];
    MoreCounts(chain.headerMmr, b.header.hash, m);
    MainBits(chain.db, range, m, 0);
    Windows(m);
    LenientAccepts(chain, b);
  }

  lemma MoreCounts(range: seq<Hash>, h: Hash, m: nat)
    requires Counts(range, m)
    ensures |range + [h]| == m + 2 && Counts((range + [h])[..m + 1], m) && (h == m + 1 ==> Counts(range + [h], m + 1))
  {
    assert (range + [h])[..m + 1] == range;
  }

  /** The next header of the fork is accepted and leaves the range where it is. */
  lemma ForkNext(chain: Chain, f: nat)
    requires Grown(chain, 2 * WINDOW, f) && f + 1 < 2 * WINDOW
    ensures var b := Block(Fork(f + 1), 0); chain.Acceptable(b) && !chain.Moves(b)
  {
    hide Sound, SumsAlong, ChainTo, Logged, FirstOfGreatestHeight, BitsOk, Counts, Tree;
    var b := Block(Fork(f + 1), 0);
    var h := b.header.prevHash;
    assert Lookup(2 * WINDOW, f, FORK + f + 1).None? && Lookup(2 * WINDOW, f, h) == Some(Fork(f));
    ForkBits(chain.db, chain.headerMmr, f);
    Windows(f);
    LenientAccepts(chain, b);
  }

  method GrowMain(chain: Chain, m: nat)
    requires Grown(chain, m, 0) && m < 2 * WINDOW
    modifies chain
    ensures Grown(chain, m + 1, 0)
  {
    hide LenientRules, Sound, SumsAlong, ChainTo, Logged, FirstOfGreatestHeight, Stores, Counts;
    hide Chain.Acceptable, Chain.Moves, Chain.StoreValid;
    var b := Block(Main(m + 1), 0);
    MainNext(chain, m);
    ghost var before, range := chain.db, chain.headerMmr;
    NotStored(before, m, 0, b.header);
    var r := chain.ProcessBlock(b);
    StoresMore(before, m, 0, b, chain.db.sums);
    MoreCounts(range, b.header.hash, m);
    assert chain.db == Db(before.headers[b.header.hash := b.header], before.blocks[b.header.hash := b], chain.db.sums);
  }

  lemma NotStored(db: Db, m: nat, f: nat, h: Header)
    requires Stores(db, m, f) && m <= 2 * WINDOW && f < 2 * WINDOW
    requires (m < 2 * WINDOW && h == Main(m + 1)) || h.hash == FORK + f + 1
    ensures h.hash !in db.headers
  {
    assert Lookup(m, f, h.hash).None?;
  }

  method GrowFork(chain: Chain, f: nat)
    requires Grown(chain, 2 * WINDOW, f) && f + 1 < 2 * WINDOW
    modifies chain
    ensures Grown(chain, 2 * WINDOW, f + 1)
  {
    hide LenientRules, Sound, SumsAlong, ChainTo, Logged, FirstOfGreatestHeight, Stores, Counts;
    hide Chain.Acceptable, Chain.Moves, Chain.StoreValid;
    var b := Block(Fork(f + 1), 0);
    ForkNext(chain, f);
    ghost var before := chain.db;
    NotStored(before, 2 * WINDOW, f, b.header);
    var r := chain.ProcessBlock(b);
    StoresMore(before, 2 * WINDOW, f, b, chain.db.sums);
    assert chain.db == Db(before.headers[b.header.hash := b.header], before.blocks[b.header.hash := b], chain.db.sums);
  }

  /** The chain to a header of the fork is the fork. */
  lemma {:induction false} ForkChain(db: Db, m: nat, f: nat, n: nat, k: nat)
    requires Stores(db, m, f) && Tree(db.headers, GENESIS) && 0 < k <= n <= f && f < 2 * WINDOW
    requires Stored(db.headers, Fork(n))
    ensures ChainTo(db.headers, GENESIS, Fork(n))[k] == FORK + k
    decreases n
  {
    hide Stores, Tree;
    if k < n {
      ForkParent(db, m, f, n);
      ForkChain(db, m, f, n - 1, k);
    }
  }

  lemma ForkParent(db: Db, m: nat, f: nat, n: nat)
    requires Stores(db, m, f) && 1 < n <= f
    ensures Fork(n).prevHash in db.headers && db.headers[Fork(n).prevHash] == Fork(n - 1)
            && Stored(db.headers, Fork(n - 1))
  {
    assert Lookup(m, f, FORK + n - 1) == Some(Fork(n - 1));
  }

  /** The block that opens the third window on the fork. */
  function Opening(bits: int): Block {
    Block(Fork(2 * WINDOW).(bits := bits), 0)
  }

  /** The fork asks for the time of its own header, the range for that of the chain. */
  lemma OpeningBits(db: Db, range: seq<Hash>, bits: int)
    requires Stores(db, 2 * WINDOW, 2 * WINDOW - 1) && Tree(db.headers, GENESIS) && Counts(range, 2 * WINDOW)
    requires Stored(db.headers, Fork(2 * WINDOW - 1))
    ensures
      var prev, h := Fork(2 * WINDOW - 1), Opening(bits).header;
      && (BitsOk(LenientRules().nextBits, db.headers, ChainTo(db.headers, GENESIS, prev), h, prev) <==>
        bits == 2 * WINDOW)
      && (BitsOk(LenientRules().nextBits, db.headers, range, h, prev) <==> bits == WINDOW)
  {
    hide Tree, ChainTo, Stores;
    var prev := Fork(2 * WINDOW - 1);
    Windows(2 * WINDOW - 1);
    assert StartsWindow(prev) && StartHeight(prev) == WINDOW;
    ForkChain(db, 2 * WINDOW, 2 * WINDOW - 1, 2 * WINDOW - 1, WINDOW);
    Opened(db);
  }

  lemma Opened(db: Db)
    requires Stores(db, 2 * WINDOW, 2 * WINDOW - 1)
    ensures WINDOW in db.headers && db.headers[WINDOW].time == WINDOW
    ensures FORK + WINDOW in db.headers && db.headers[FORK + WINDOW].time == 2 * WINDOW
  {
    assert Lookup(2 * WINDOW, 2 * WINDOW - 1, WINDOW) == Some(Main(WINDOW));
    assert Lookup(2 * WINDOW, 2 * WINDOW - 1, FORK + WINDOW) == Some(Fork(WINDOW));
  }

  lemma OpeningVerdicts(chain: Chain, bits: int)
    requires Grown(chain, 2 * WINDOW, 2 * WINDOW - 1)
    ensures chain.FollowsOwnBranch(Opening(bits)) <==> bits == 2 * WINDOW
    ensures chain.Acceptable(Opening(bits)) <==> bits == WINDOW
    ensures !chain.Moves(Opening(bits))
  {
    hide Sound, SumsAlong, ChainTo, Logged, FirstOfGreatestHeight, BitsOk, Counts, Tree;
    var f := 2 * WINDOW - 1;
    var b := Opening(bits);
    assert Lookup(2 * WINDOW, f, FORK + f + 1).None? && Lookup(2 * WINDOW, f, FORK + f) == Some(Fork(f));
    Windows(f);
    OpeningBits(chain.db, chain.headerMmr, bits);
    LenientAccepts(chain, b);
  }

  /**
   With the range on one branch, a block of the other is judged by the wrong window: the one that
   follows its branch is rejected, and one that does not is accepted.
   */
  method RangeJudgesFork() returns (chain: Chain, own: PipeResult)
    ensures chain.Valid() && own.Rejected?
    ensures chain.FollowsOwnBranch(Opening(2 * WINDOW)) && !chain.Acceptable(Opening(2 * WINDOW))
    ensures !chain.FollowsOwnBranch(Opening(WINDOW)) && chain.Acceptable(Opening(WINDOW))
  {
    hide LenientRules, Sound, SumsAlong, ChainTo, Logged, FirstOfGreatestHeight, Stores, Counts;
    hide Chain.Acceptable, Chain.Moves, Chain.FollowsOwnBranch;
    chain := new Chain(LenientRules(), Block(GENESIS, 0), 0);
    StoresGenesis(chain.db);
    for m := 0 to 2 * WINDOW
      invariant fresh(chain) && Grown(chain, m, 0)
    {
      GrowMain(chain, m);
    }
    for f := 0 to 2 * WINDOW - 1
      invariant fresh(chain) && Grown(chain, 2 * WINDOW, f)
    {
      GrowFork(chain, f);
    }
    OpeningVerdicts(chain, 2 * WINDOW);
    NotStored(chain.db, 2 * WINDOW, 2 * WINDOW - 1, Opening(2 * WINDOW).header);
    own := chain.ProcessBlock(Opening(2 * WINDOW));
    OpeningVerdicts(chain, 2 * WINDOW);
    OpeningVerdicts(chain, WINDOW);
  }

  lemma StoresGenesis(db: Db)
    requires db.headers == map[0 := GENESIS] && db.blocks == map[0 := Block(GENESIS, 0)]
    ensures Stores(db, 0, 0) && Counts([0], 0)
  {
  }
}
