/** Orphans offered to the chain again: those whose branch has arrived are all accepted. */
module OrphanDrain {
  import opened ChainTree
  import opened Difficulty
  import opened BlockRules
  import opened BlockPipe
  import opened ChainState
  import opened OrphanIndex
  import opened Orphans

  /** What is stored later includes what is stored now. */
  ghost predicate Grown(db: Db, more: Db) {
    && (forall h :: h in db.headers ==> h in more.headers && more.headers[h] == db.headers[h])
    && (forall h :: h in db.blocks ==> h in more.blocks && more.blocks[h] == db.blocks[h])
  }

  /** A block follows its branch, by what is stored: everything but being known already. */
  ghost predicate FollowsIn(rules: Rules, genesis: Header, start: Sums, db: Db, b: Block)
    requires Sound(rules, genesis, start, db)
  {
    && rules.powOk(b.header) && b.header.prevHash in db.blocks
    && (StoredBlock(db.headers, genesis, db.blocks, b.header.prevHash);
        var prev := db.headers[b.header.prevHash];
        && (b.header.height < rules.refactorHeight ==> rules.auxOk(b))
        && HeaderFollows(rules, db.headers, genesis, b.header, prev)
        && BitsOk(rules.nextBits, db.headers, ChainTo(db.headers, genesis, prev), b.header, prev)
        && BlockFollows(rules, db.headers, genesis, db.blocks, start, b, prev))
  }

  /** Storing more changes no verdict on a branch. */
  lemma FollowsLater(rules: Rules, genesis: Header, start: Sums, db: Db, more: Db, b: Block)
    requires Sound(rules, genesis, start, db) && Sound(rules, genesis, start, more) && Grown(db, more)
    requires FollowsIn(rules, genesis, start, db, b)
    ensures FollowsIn(rules, genesis, start, more, b)
  {
    hide Tree, BlockTree, HeadersSound, BlocksSound, SumsSound, ChainTo, SumsTo;
    StoredBlock(db.headers, genesis, db.blocks, b.header.prevHash);
    StoredBlock(more.headers, genesis, more.blocks, b.header.prevHash);
    var prev := db.headers[b.header.prevHash];
    ChainKept(db.headers, more.headers, genesis, prev);
    SumsKept(rules, db.headers, more.headers, genesis, db.blocks, more.blocks, start, prev);
    if StartsWindow(prev) {
      var _ := Ancestor(db.headers, genesis, prev, StartHeight(prev));
    }
  }

  ghost function StoreIn(db: Db, b: Block): Db {
    Db(db.headers[b.header.hash := b.header], db.blocks[b.header.hash := b], db.sums)
  }

  /** Neither stored nor, by its hash, anything else that is. */
  ghost predicate New(db: Db, b: Block) {
    b.header.hash !in db.blocks && (b.header.hash in db.headers ==> db.headers[b.header.hash] == b.header)
  }

  lemma StoreIsSound(rules: Rules, genesis: Header, start: Sums, db: Db, b: Block)
    requires Sound(rules, genesis, start, db) && New(db, b) && FollowsIn(rules, genesis, start, db, b)
    ensures Sound(rules, genesis, start, StoreIn(db, b)) && Grown(db, StoreIn(db, b))
  {
    hide Tree, BlockTree, HeadersSound, BlocksSound, SumsSound, ChainTo, SumsTo, HeaderFollows;
    StoredBlock(db.headers, genesis, db.blocks, b.header.prevHash);
    var prev, more := db.headers[b.header.prevHash], db.headers[b.header.hash := b.header];
    FollowsParent(rules, db.headers, genesis, b.header, prev);
    BlockRules.AddHeader(rules, db.headers, genesis, b.header, prev);
    HeaderKeepsBlocks(rules, db.headers, more, genesis, db.blocks, start, db.sums);
    BranchKept(rules, genesis, start, db, more, b, prev);
    BlockRules.AddBlock(rules, more, genesis, db.blocks, start, db.sums, b, prev);
  }

  lemma FollowsParent(rules: Rules, headers: Headers, genesis: Header, h: Header, prev: Header)
    requires Tree(headers, genesis) && Stored(headers, prev) && HeaderFollows(rules, headers, genesis, h, prev)
    ensures h.prevHash == prev.hash && h.height == prev.height + 1
  {
  }

  /** Blocks that are new and follow one another, the first of them on what is stored. */
  ghost predicate Fine(rules: Rules, genesis: Header, start: Sums, db: Db, bs: seq<Block>)
    requires Sound(rules, genesis, start, db)
    decreases |bs|
  {
    bs == [] ||
    (&& New(db, bs[0]) && FollowsIn(rules, genesis, start, db, bs[0])
     && (StoreIsSound(rules, genesis, start, db, bs[0]);
         Fine(rules, genesis, start, StoreIn(db, bs[0]), bs[1..])))
  }

  /** When the blocks before it are stored, whatever else is, the next one follows. */
  lemma {:induction false} NextIsFine(
      rules: Rules, genesis: Header, start: Sums, db: Db, bs: seq<Block>, later: Db, i: nat)
    requires Sound(rules, genesis, start, db) && Sound(rules, genesis, start, later) && Grown(db, later)
    requires i < |bs| && Fine(rules, genesis, start, db, bs)
    requires forall j :: 0 <= j < i ==> bs[j].header.hash in later.blocks && later.blocks[bs[j].header.hash] == bs[j]
    ensures FollowsIn(rules, genesis, start, later, bs[i])
    decreases i
  {
    hide Sound, FollowsIn;
    if i == 0 {
      FollowsLater(rules, genesis, start, db, later, bs[0]);
    } else {
      StoreIsSound(rules, genesis, start, db, bs[0]);
      HeaderOf(rules, genesis, start, later, bs[0].header.hash);
      NextIsFine(rules, genesis, start, StoreIn(db, bs[0]), bs[1..], later, i - 1);
    }
  }

  lemma HeaderOf(rules: Rules, genesis: Header, start: Sums, db: Db, h: Hash)
    requires Sound(rules, genesis, start, db) && h in db.blocks
    ensures h in db.headers && db.headers[h] == db.blocks[h].header
  {
    hide Tree, HeadersSound, BlocksSound, SumsSound;
  }

  /** The bits of the block do not depend on where the last difficulty window was opened. */
  predicate InWindow(b: Block) {
    b.header.height % DIFFICULTY_ADJUST_WINDOW != 0
  }

  /** A new block that follows its branch and opens no window. */
  ghost predicate Ready(rules: Rules, genesis: Header, start: Sums, db: Db, b: Block) {
    && Sound(rules, genesis, start, db) && FollowsIn(rules, genesis, start, db, b)
    && b.header.hash !in db.blocks && InWindow(b) && b.header.hash != genesis.prevHash
  }

  /** The chain accepts it, unless its range is stuck. */
  lemma ReadyIsAcceptable(chain: Chain, b: Block)
    requires chain.Valid() && Ready(chain.rules, chain.genesis, chain.start, chain.db, b)
    ensures chain.Acceptable(b)
  {
    hide Tree, HeadersSound, BlocksSound, SumsSound, SumsAlong, ChainTo, BlockFollows, Logged, FirstOfGreatestHeight;
    TreeHangs(chain.db.headers, chain.genesis, chain.head.hash);
    chain.AcceptedOnOwnBranch(b);
  }

  lemma TreeHangs(headers: Headers, genesis: Header, h: Hash)
    requires Tree(headers, genesis) && h in headers
    ensures Hangs(headers, genesis, h) && genesis.hash in headers && headers[genesis.hash] == genesis
  {
  }

  /** From `height` up, `after` holds what `before` did. */
  ghost predicate SameFrom(before: map<Hash, Orphan>, after: map<Hash, Orphan>, height: nat) {
    && ShrinksFrom(before, after, height)
    && forall h :: h in before && before[h].height >= height ==> h in after && after[h] == before[h]
  }

  /** At all other heights `after` holds what `before` did. */
  ghost predicate SameBut(before: map<Hash, Orphan>, after: map<Hash, Orphan>, height: nat) {
    && (forall h :: h in before && before[h].height != height ==> h in after && after[h] == before[h])
    && (forall h :: h in after && after[h].height != height ==> h in before && before[h] == after[h])
  }

  /** A block with proof of work that is not stored, and its parent neither. */
  ghost predicate Waiting(rules: Rules, genesis: Header, db: Db, b: Block) {
    && rules.powOk(b.header) && b.header.hash !in db.blocks && b.header.prevHash !in db.blocks
    && b.header.hash != genesis.prevHash
  }

  /** What waits is in the pool at its height, and nothing else of these but what is not stored. */
  ghost predicate BackAt(
      rules: Rules, genesis: Header, db: Db, blockOf: Hash -> Block, held: seq<Orphan>,
      pool: map<Hash, Orphan>, height: nat)
  {
    && (forall o :: o in held && Waiting(rules, genesis, db, blockOf(o.hash)) ==>
          o.hash in pool && pool[o.hash].height == height && pool[o.hash].hash == o.hash)
    && (forall h :: h in pool && pool[h].height == height ==> h !in db.blocks && exists o :: o in held && o.hash == h)
  }

  /** The block of an orphan has its hash and height, and nothing else is stored under the hash. */
  ghost predicate Names(blockOf: Hash -> Block, db: Db, o: Orphan) {
    && blockOf(o.hash).header.hash == o.hash && blockOf(o.hash).header.height == o.height
    && (o.hash in db.headers ==> db.headers[o.hash] == blockOf(o.hash).header)
  }

  /** Those that were ready are stored. */
  ghost predicate StoredIn(
      rules: Rules, genesis: Header, start: Sums, before: Db, db: Db, blockOf: Hash -> Block, held: seq<Orphan>)
  {
    forall o :: o in held && Ready(rules, genesis, start, before, blockOf(o.hash)) ==> o.hash in db.blocks
  }

  /** What was stored is still, and what is new are the blocks of these orphans. */
  ghost predicate Stores(blockOf: Hash -> Block, held: seq<Orphan>, db: Db, more: Db) {
    && Grown(db, more)
    && (forall h :: h in more.headers && h !in db.headers ==>
          more.headers[h] == blockOf(h).header && exists o :: o in held && o.hash == h)
    && (forall h :: h in more.blocks && h !in db.blocks ==>
          more.blocks[h] == blockOf(h) && exists o :: o in held && o.hash == h)
  }

  /** The headers have come before the blocks. */
  ghost predicate HeadersThere(db: Db, held: seq<Orphan>) {
    forall o :: o in held ==> o.hash in db.headers
  }

  lemma StoresNothing(blockOf: Hash -> Block, held: seq<Orphan>, db: Db)
    ensures Stores(blockOf, held, db, db)
  {
  }

  lemma StillNamed(blockOf: Hash -> Block, held: seq<Orphan>, db: Db, more: Db, o: Orphan)
    requires Stores(blockOf, held, db, more) && Names(blockOf, db, o)
    ensures Names(blockOf, more, o) && Grown(db, more)
  {
  }

  lemma StoresOne(blockOf: Hash -> Block, held: seq<Orphan>, db: Db, more: Db, next: Db, o: Orphan)
    requires Stores(blockOf, held, db, more) && o in held && Names(blockOf, more, o) && o.hash !in more.blocks
    requires next.headers == more.headers[o.hash := blockOf(o.hash).header]
    requires next.blocks == more.blocks[o.hash := blockOf(o.hash)]
    ensures Stores(blockOf, held, db, next) && next.blocks != db.blocks
  {
    assert o.hash in next.blocks && o.hash !in db.blocks;
  }

  lemma OneMoreStored(
      chain: Chain, db: Db, before: Db, blockOf: Hash -> Block, held: seq<Orphan>, i: nat)
    requires i < |held| && Names(blockOf, before, held[i]) && Grown(db, before) && Grown(before, chain.db)
    requires Sound(chain.rules, chain.genesis, chain.start, before)
    requires !chain.Stuck() ==>
               && StoredIn(chain.rules, chain.genesis, chain.start, db, before, blockOf, held[..i])
               && (Ready(chain.rules, chain.genesis, chain.start, before, blockOf(held[i].hash)) ==>
                     held[i].hash in chain.db.blocks)
    ensures chain.Stuck() || StoredIn(chain.rules, chain.genesis, chain.start, db, chain.db, blockOf, held[..i + 1])
  {
    hide Sound, Ready, Chain.Stuck;
    if !chain.Stuck() {
      forall o | o in held[..i + 1] && Ready(chain.rules, chain.genesis, chain.start, db, blockOf(o.hash))
        ensures o.hash in chain.db.blocks {
        if o !in held[..i] {
          assert o == held[i];
          if o.hash !in before.blocks {
            ReadyLater(chain.rules, chain.genesis, chain.start, db, before, blockOf(o.hash));
          }
        }
      }
    }
  }

  lemma NothingStored(chain: Chain, db: Db, blockOf: Hash -> Block, held: seq<Orphan>)
    ensures StoredIn(chain.rules, chain.genesis, chain.start, db, db, blockOf, held[..0])
  {
  }

  lemma HashOf(blockOf: Hash -> Block, db: Db, o: Orphan)
    requires Names(blockOf, db, o)
    ensures blockOf(o.hash).header.hash == o.hash
    ensures o.hash in db.headers ==> db.headers[o.hash] == blockOf(o.hash).header
  {
  }

  lemma NothingBack(
      rules: Rules, genesis: Header, db: Db, blockOf: Hash -> Block, held: seq<Orphan>,
      pool: map<Hash, Orphan>, height: nat)
    requires forall h :: h in pool ==> pool[h].height != height
    ensures BackAt(rules, genesis, db, blockOf, held[..0], pool, height) && SameBut(pool, pool, height)
  {
  }

  /** One more offered: stored, put back, or gone. */
  lemma OneMoreBack(
      rules: Rules, genesis: Header, db: Db, next: Db, blockOf: Hash -> Block, held: seq<Orphan>, i: nat,
      pool: map<Hash, Orphan>, after: map<Hash, Orphan>, height: nat, ok: bool, orphan: bool)
    requires i < |held| && Once(held) && blockOf(held[i].hash).header.hash == held[i].hash
    requires BackAt(rules, genesis, db, blockOf, held[..i], pool, height)
    requires if ok then next.blocks == db.blocks[held[i].hash := blockOf(held[i].hash)] && !orphan else next == db
    requires orphan ==> held[i].hash !in db.blocks
    requires Waiting(rules, genesis, next, blockOf(held[i].hash)) ==> orphan
    requires !orphan ==> after == pool
    requires orphan ==> exists at :: after == pool[held[i].hash := held[i].(added := at)]
    requires held[i].height == height
    ensures BackAt(rules, genesis, next, blockOf, held[..i + 1], after, height)
  {
    var x := held[i];
    assert held[..i + 1] == held[..i] + [x];
    forall o | o in held[..i + 1] && Waiting(rules, genesis, next, blockOf(o.hash))
      ensures o.hash in after && after[o.hash].height == height && after[o.hash].hash == o.hash {
      if o in held[..i] {
        assert Waiting(rules, genesis, db, blockOf(o.hash));
      }
    }
    forall h | h in after && after[h].height == height
      ensures h !in next.blocks && exists o :: o in held[..i + 1] && o.hash == h {
      if orphan && h == x.hash {
        assert x in held[..i + 1];
      } else {
        assert h in pool && pool[h].height == height;
        var o :| o in held[..i] && o.hash == h;
        assert o in held[..i + 1];
        var j :| 0 <= j < i && held[..i][j] == o;
        assert held[j].hash != held[i].hash;
      }
    }
  }

  lemma ReadyLater(rules: Rules, genesis: Header, start: Sums, db: Db, more: Db, b: Block)
    requires Ready(rules, genesis, start, db, b) && Sound(rules, genesis, start, more) && Grown(db, more)
    requires b.header.hash !in more.blocks
    ensures Ready(rules, genesis, start, more, b)
  {
    hide Sound, FollowsIn;
    FollowsLater(rules, genesis, start, db, more, b);
  }

  lemma StoreOfChain(chain: Chain)
    requires chain.Running()
    ensures Sound(chain.rules, chain.genesis, chain.start, chain.db)
    ensures chain.Valid() <==> !chain.Stuck()
  {
    hide Sound, ChainTo, SumsAlong, Logged, FirstOfGreatestHeight;
    if chain.RangeValid() { TreeHangs(chain.db.headers, chain.genesis, chain.headerTip.hash); }
  }

  /** Offers a block to the chain: it is stored and nothing else happens to the store, or nothing at all does. */
  method Offer(chain: Chain, b: Block) returns (ok: bool, orphan: bool)
    requires chain.Running()
    requires b.header.hash in chain.db.headers ==> chain.db.headers[b.header.hash] == b.header
    modifies chain
    ensures chain.Running()
    ensures ok ==>
              && !orphan && b.header.hash !in old(chain.db).blocks
              && chain.db.headers == old(chain.db).headers[b.header.hash := b.header]
              && chain.db.blocks == old(chain.db).blocks[b.header.hash := b]
    ensures !ok ==> chain.db == old(chain.db)
    ensures old(chain.Stuck()) ==> chain.Stuck()
    ensures !old(chain.Stuck()) && b.header.hash in old(chain.db).headers ==> !chain.Stuck()
    ensures Ready(chain.rules, chain.genesis, chain.start, old(chain.db), b) && !old(chain.Stuck()) ==> ok
    ensures orphan ==> b.header.hash !in chain.db.blocks
    ensures Waiting(chain.rules, chain.genesis, chain.db, b) ==> orphan
  {
    hide Chain.Running, Chain.StoreValid, Chain.RangeValid, Chain.Stuck, Chain.Acceptable, Chain.Moves, Ready;
    hide HasBlock, Sound, Stored, Chain.Known, ChainTo;
    StoreOfChain(chain);
    AcceptedIfReady(chain, b);
    KnownOf(chain, b.header.hash);
    var result := chain.ProcessBlock(b);
    ok := result.Accepted?;
    orphan := result == Rejected(ChainState.Orphan);
  }

  lemma KnownOf(chain: Chain, h: Hash)
    requires chain.Running()
    ensures h in chain.db.blocks ==> chain.Known(h)
    ensures chain.Known(h) ==> h in chain.db.blocks || h == chain.genesis.prevHash
  {
    hide Chain.StoreValid;
    chain.KnownMeans(h);
  }

  lemma AcceptedIfReady(chain: Chain, b: Block)
    requires chain.Running()
    ensures chain.RangeValid() ==> chain.Valid()
    ensures chain.RangeValid() && chain.Acceptable(b) ==> b.header.hash !in chain.db.blocks
    ensures !chain.Stuck() && Ready(chain.rules, chain.genesis, chain.start, chain.db, b) ==>
              chain.RangeValid() && chain.Acceptable(b)
  {
    hide Chain.StoreValid, Ready, Chain.HeaderPasses, BlockFollows;
    if !chain.Stuck() && Ready(chain.rules, chain.genesis, chain.start, chain.db, b) {
      ReadyIsAcceptable(chain, b);
    }
  }

  lemma SameAbove(pool: OrphanBlockPool, o: Orphan, again: Orphan)
    requires pool.Valid() && o.height == pool.heightOf(o.hash) && again.height == o.height && again.hash == o.hash
    ensures SameBut(pool.orphans, pool.orphans[o.hash := again], o.height)
  {
    hide Indexed, IndexedRight;
  }

  lemma SameOn(a: map<Hash, Orphan>, b: map<Hash, Orphan>, c: map<Hash, Orphan>, height: nat)
    requires SameBut(a, b, height) && SameBut(b, c, height)
    ensures SameBut(a, c, height)
  {
  }

  /** Puts an orphan back where there is room. */
  method PutBack(pool: OrphanBlockPool, o: Orphan, now: int)
    requires pool.Valid() && |pool.orphans| < MAX_ORPHAN_SIZE && o.height == pool.heightOf(o.hash)
    modifies pool
    ensures pool.Valid() && pool.handedOut == old(pool.handedOut)
    ensures pool.orphans == old(pool.orphans)[o.hash := o.(added := now)]
    ensures |pool.orphans| <= |old(pool.orphans)| + 1
    ensures SameBut(old(pool.orphans), pool.orphans, o.height)
  {
    hide OrphanBlockPool.Valid, Trimmed;
    SameAbove(pool, o, o.(added := now));
    pool.Add(o.(added := now), now);
  }

  /** Offers one orphan to the chain and puts it back if it still is one. */
  method OfferHeld(chain: Chain, pool: OrphanBlockPool, b: Block, o: Orphan, now: int)
    returns (ok: bool, ghost orphan: bool)
    requires pool.Valid() && chain.Running() && |pool.orphans| < MAX_ORPHAN_SIZE
    requires b.header.hash == o.hash && o.height == pool.heightOf(o.hash)
    requires o.hash in chain.db.headers ==> chain.db.headers[o.hash] == b.header
    modifies pool, chain
    ensures pool.Valid() && pool.handedOut == old(pool.handedOut) && |pool.orphans| <= |old(pool.orphans)| + 1
    ensures SameBut(old(pool.orphans), pool.orphans, o.height)
    ensures !orphan ==> pool.orphans == old(pool.orphans)
    ensures orphan ==> pool.orphans == old(pool.orphans)[o.hash := o.(added := now)]
    ensures orphan ==> o.hash !in chain.db.blocks
    ensures Waiting(chain.rules, chain.genesis, chain.db, b) ==> orphan
    ensures chain.Running()
    ensures ok ==>
              && !orphan && o.hash !in old(chain.db).blocks
              && chain.db.headers == old(chain.db).headers[o.hash := b.header]
              && chain.db.blocks == old(chain.db).blocks[o.hash := b]
    ensures !ok ==> chain.db == old(chain.db)
    ensures old(chain.Stuck()) ==> chain.Stuck()
    ensures !old(chain.Stuck()) && o.hash in old(chain.db).headers ==> !chain.Stuck()
    ensures Ready(chain.rules, chain.genesis, chain.start, old(chain.db), b) && !old(chain.Stuck()) ==> ok
  {
    hide OrphanBlockPool.Valid, Chain.Running, Chain.Stuck, Ready, Waiting;
    var still;
    ok, still := Offer(chain, b);
    orphan := still;
    if still {
      PutBack(pool, o, now);
    }
  }

  /**
   Offers what was held at one height to the chain; a block that is still an orphan goes back into
   the pool, where there is room for it. Those that are ready are accepted, unless the range gets stuck.
   */
  method ProcessHeld(
      chain: Chain, pool: OrphanBlockPool, blockOf: Hash -> Block, held: seq<Orphan>, height: nat, calls: nat,
      clock: nat -> int)
    returns (accepted: seq<Orphan>)
    requires pool.Valid() && chain.Running() && |pool.orphans| + |held| <= MAX_ORPHAN_SIZE
    requires forall o :: o in held ==> o.height == height == pool.heightOf(o.hash)
    requires forall o :: o in held ==> Names(blockOf, chain.db, o)
    requires Once(held) && forall h :: h in pool.orphans ==> pool.orphans[h].height != height
    modifies pool, chain
    ensures pool.Valid() && pool.handedOut == old(pool.handedOut)
    ensures SameBut(old(pool.orphans), pool.orphans, height)
    ensures BackAt(chain.rules, chain.genesis, chain.db, blockOf, held, pool.orphans, height)
    ensures chain.Running() && Stores(blockOf, held, old(chain.db), chain.db)
    ensures forall o :: o in accepted ==> o in held
    ensures accepted == [] <==> chain.db.blocks == old(chain.db.blocks)
    ensures old(chain.Stuck()) ==> chain.Stuck()
    ensures !old(chain.Stuck()) && HeadersThere(old(chain.db), held) ==> !chain.Stuck()
    ensures chain.Stuck() || StoredIn(chain.rules, chain.genesis, chain.start, old(chain.db), chain.db, blockOf, held)
  {
    hide OrphanBlockPool.Valid, Chain.Running, Chain.Stuck, Ready, Stores, Names, SameBut, Sound, StoredIn, BackAt;
    hide Waiting, Once;
    accepted := [];
    NothingStored(chain, chain.db, blockOf, held);
    NothingBack(chain.rules, chain.genesis, chain.db, blockOf, held, pool.orphans, height);
    StoresNothing(blockOf, held, chain.db);
    for i := 0 to |held|
      invariant pool.Valid() && pool.handedOut == old(pool.handedOut)
      invariant |pool.orphans| + (|held| - i) <= MAX_ORPHAN_SIZE
      invariant SameBut(old(pool.orphans), pool.orphans, height)
      invariant BackAt(chain.rules, chain.genesis, chain.db, blockOf, held[..i], pool.orphans, height)
      invariant chain.Running() && Stores(blockOf, held, old(chain.db), chain.db)
      invariant forall o :: o in accepted ==> o in held
      invariant accepted == [] <==> chain.db.blocks == old(chain.db.blocks)
      invariant old(chain.Stuck()) ==> chain.Stuck()
      invariant !old(chain.Stuck()) && HeadersThere(old(chain.db), held) ==> !chain.Stuck()
      invariant chain.Stuck() ||
                StoredIn(chain.rules, chain.genesis, chain.start, old(chain.db), chain.db, blockOf, held[..i])
    {
      var o := held[i];
      assert o in held;
      ghost var before, orphans := chain.db, pool.orphans;
      StillNamed(blockOf, held, old(chain.db), chain.db, o);
      HashOf(blockOf, before, o);
      StoreOfChain(chain);
      var ok, orphan := OfferHeld(chain, pool, blockOf(o.hash), o, clock(calls + i));
      if ok {
        accepted := accepted + [o];
        StoresOne(blockOf, held, old(chain.db), before, chain.db, o);
      }
      SameOn(old(pool.orphans), orphans, pool.orphans, height);
      OneMoreBack(chain.rules, chain.genesis, before, chain.db, blockOf, held, i, orphans, pool.orphans, height, ok,
                  orphan);
      OneMoreStored(chain, old(chain.db), before, blockOf, held, i);
    }
    assert held[..|held|] == held;
  }

  /** Held blocks, one on the other from `low` up, that follow one another from what is stored and open no window. */
  ghost predicate Ripe(
      rules: Rules, genesis: Header, start: Sums, db: Db, orphans: map<Hash, Orphan>, blockOf: Hash -> Block, low: nat,
      bs: seq<Block>)
  {
    && Sound(rules, genesis, start, db) && Fine(rules, genesis, start, db, bs)
    && forall i :: 0 <= i < |bs| ==> RipeAt(genesis, db, orphans, blockOf, low, bs[i], i)
  }

  ghost predicate RipeAt(
      genesis: Header, db: Db, orphans: map<Hash, Orphan>, blockOf: Hash -> Block, low: nat, b: Block, i: nat)
  {
    var h := b.header.hash;
    && h in orphans && orphans[h].height == low + i && orphans[h].hash == h && blockOf(h) == b
    && InWindow(b) && h !in db.blocks && h != genesis.prevHash
  }

  /** Below height `k` they are stored. */
  ghost predicate DoneBelow(
      rules: Rules, genesis: Header, start: Sums, db: Db, orphans: map<Hash, Orphan>, blockOf: Hash -> Block, low: nat,
      now: Db, k: nat)
  {
    forall bs: seq<Block>, i ::
      Ripe(rules, genesis, start, db, orphans, blockOf, low, bs) && 0 <= i < |bs| && low + i < k ==>
        bs[i].header.hash in now.blocks
  }

  ghost predicate AllDone(
      rules: Rules, genesis: Header, start: Sums, db: Db, orphans: map<Hash, Orphan>, blockOf: Hash -> Block, low: nat,
      now: Db)
  {
    forall bs: seq<Block>, i :: Ripe(rules, genesis, start, db, orphans, blockOf, low, bs) && 0 <= i < |bs| ==>
      bs[i].header.hash in now.blocks
  }

  /** What is new in the store are blocks of orphans held below height `k`. */
  ghost predicate StoresBelow(blockOf: Hash -> Block, orphans: map<Hash, Orphan>, db: Db, now: Db, k: nat) {
    && Grown(db, now)
    && (forall h :: h in now.headers && h !in db.headers ==> now.headers[h] == blockOf(h).header)
    && (forall h :: h in now.blocks && h !in db.blocks ==>
          now.blocks[h] == blockOf(h) && h in orphans && orphans[h].height < k)
  }

  /** How far the drain has come when height `k` is next. */
  ghost predicate Progress(
      chain: Chain, stuck: bool, now: Db, db: Db, orphans: map<Hash, Orphan>, blockOf: Hash -> Block, low: nat,
      pool: map<Hash, Orphan>, k: nat)
  {
    && SameFrom(orphans, pool, k) && StoresBelow(blockOf, orphans, db, now, k)
    && (stuck || DoneBelow(chain.rules, chain.genesis, chain.start, db, orphans, blockOf, low, now, k))
  }

  /**
   From `low` to `k`, what was held and waits is in the pool at its height; and what the pool holds
   there was held before and is not stored.
   */
  ghost predicate KeptBack(
      rules: Rules, genesis: Header, now: Db, orphans: map<Hash, Orphan>, blockOf: Hash -> Block, low: nat,
      pool: map<Hash, Orphan>, k: nat)
  {
    && (forall h :: h in orphans && low <= orphans[h].height < k && Waiting(rules, genesis, now, blockOf(h)) ==>
          h in pool && pool[h].height == orphans[h].height)
    && (forall h :: h in pool && low <= pool[h].height < k ==>
          h !in now.blocks && h in orphans && orphans[h].height == pool[h].height)
  }

  /** One height more. */
  lemma BackDone(
      rules: Rules, genesis: Header, mid: Db, now: Db, orphans: map<Hash, Orphan>, blockOf: Hash -> Block, low: nat,
      pool: map<Hash, Orphan>, after: map<Hash, Orphan>, held: seq<Orphan>, k: nat)
    requires KeptBack(rules, genesis, mid, orphans, blockOf, low, pool, k) && low <= k
    requires SameFrom(orphans, pool, k) && SameBut(pool, after, k) && Stores(blockOf, held, mid, now)
    requires BackAt(rules, genesis, now, blockOf, held, after, k)
    requires forall o :: o in held <==> Holds(pool, o) && o.height == k
    requires forall h :: h in orphans ==> orphans[h].hash == h
    ensures KeptBack(rules, genesis, now, orphans, blockOf, low, after, k + 1)
  {
    forall h | h in orphans && low <= orphans[h].height <= k && Waiting(rules, genesis, now, blockOf(h))
      ensures h in after && after[h].height == orphans[h].height {
      if orphans[h].height < k {
        assert Waiting(rules, genesis, mid, blockOf(h));
      } else {
        assert Holds(pool, orphans[h]);
      }
    }
    forall h | h in after && low <= after[h].height <= k
      ensures h !in now.blocks && h in orphans && orphans[h].height == after[h].height {
      if after[h].height == k {
        var o :| o in held && o.hash == h;
        assert Holds(pool, o);
      }
    }
  }

  lemma NoneBack(
      rules: Rules, genesis: Header, now: Db, orphans: map<Hash, Orphan>, blockOf: Hash -> Block, low: nat,
      pool: map<Hash, Orphan>)
    ensures KeptBack(rules, genesis, now, orphans, blockOf, low, pool, low)
  {
  }

  /** Blocks accepted at every height from `low` to `k`, all of them held. */
  ghost predicate Passed(orphans: map<Hash, Orphan>, accepted: seq<Orphan>, low: nat, k: nat) {
    && (forall o :: o in accepted ==> Holds(orphans, o) && low <= o.height < k)
    && (forall h :: low <= h < k ==> AcceptedAt(accepted, h))
  }

  lemma PassedMore(orphans: map<Hash, Orphan>, accepted: seq<Orphan>, now: seq<Orphan>, low: nat, k: nat)
    requires Passed(orphans, accepted, low, k) && low <= k && now != []
    requires forall o :: o in now ==> Holds(orphans, o) && o.height == k
    ensures Passed(orphans, accepted + now, low, k + 1)
  {
    hide AcceptedAt;
    assert now[0] in now;
    MoreAccepted(accepted, now, low, k);
  }

  /** Once the blocks below are stored, the next one is ready. */
  lemma NextIsReady(
      rules: Rules, genesis: Header, start: Sums, db: Db, orphans: map<Hash, Orphan>, blockOf: Hash -> Block, low: nat,
      now: Db, bs: seq<Block>, i: nat)
    requires Ripe(rules, genesis, start, db, orphans, blockOf, low, bs) && i < |bs|
    requires Sound(rules, genesis, start, now) && StoresBelow(blockOf, orphans, db, now, low + i)
    requires DoneBelow(rules, genesis, start, db, orphans, blockOf, low, now, low + i)
    ensures Ready(rules, genesis, start, now, bs[i])
  {
    hide Sound, FollowsIn, Fine;
    forall j | 0 <= j < i ensures bs[j].header.hash in now.blocks && now.blocks[bs[j].header.hash] == bs[j] {
      assert RipeAt(genesis, db, orphans, blockOf, low, bs[j], j);
    }
    NextIsFine(rules, genesis, start, db, bs, now, i);
    assert RipeAt(genesis, db, orphans, blockOf, low, bs[i], i);
  }

  /** One height further. */
  lemma DoneAt(
      rules: Rules, genesis: Header, start: Sums, db: Db, orphans: map<Hash, Orphan>, blockOf: Hash -> Block, low: nat,
      mid: Db, now: Db, pool: map<Hash, Orphan>, held: seq<Orphan>, k: nat)
    requires low <= k && Sound(rules, genesis, start, mid) && StoresBelow(blockOf, orphans, db, mid, k)
    requires DoneBelow(rules, genesis, start, db, orphans, blockOf, low, mid, k) && Grown(mid, now)
    requires SameFrom(orphans, pool, k) && forall o :: Holds(pool, o) && o.height == k ==> o in held
    requires StoredIn(rules, genesis, start, mid, now, blockOf, held)
    ensures DoneBelow(rules, genesis, start, db, orphans, blockOf, low, now, k + 1)
    ensures now.blocks == mid.blocks ==> AllDone(rules, genesis, start, db, orphans, blockOf, low, now)
  {
    hide Sound, FollowsIn, Fine, Ready, Ripe;
    forall bs: seq<Block>, i |
      Ripe(rules, genesis, start, db, orphans, blockOf, low, bs) && 0 <= i < |bs| && low + i <= k
      ensures bs[i].header.hash in now.blocks {
      if low + i == k { RipeIsStored(rules, genesis, start, db, orphans, blockOf, low, mid, now, pool, held, bs, i); }
    }
    if now.blocks == mid.blocks {
      forall bs: seq<Block>, i | Ripe(rules, genesis, start, db, orphans, blockOf, low, bs) && 0 <= i < |bs|
        ensures bs[i].header.hash in now.blocks {
        if low + i > k {
          RipeIsStored(rules, genesis, start, db, orphans, blockOf, low, mid, now, pool, held, bs, k - low);
        }
      }
    }
  }

  lemma RipeIsStored(
      rules: Rules, genesis: Header, start: Sums, db: Db, orphans: map<Hash, Orphan>, blockOf: Hash -> Block, low: nat,
      mid: Db, now: Db, pool: map<Hash, Orphan>, held: seq<Orphan>, bs: seq<Block>, i: nat)
    requires Ripe(rules, genesis, start, db, orphans, blockOf, low, bs) && i < |bs|
    requires Sound(rules, genesis, start, mid) && StoresBelow(blockOf, orphans, db, mid, low + i)
    requires DoneBelow(rules, genesis, start, db, orphans, blockOf, low, mid, low + i)
    requires SameFrom(orphans, pool, low + i) && forall o :: Holds(pool, o) && o.height == low + i ==> o in held
    requires StoredIn(rules, genesis, start, mid, now, blockOf, held)
    ensures bs[i].header.hash in now.blocks && bs[i].header.hash !in mid.blocks
  {
    hide Sound, FollowsIn, Fine, Ready, DoneBelow, StoresBelow;
    NextIsReady(rules, genesis, start, db, orphans, blockOf, low, mid, bs, i);
    NotYet(rules, genesis, start, mid, bs[i]);
    assert RipeAt(genesis, db, orphans, blockOf, low, bs[i], i);
    var o := orphans[bs[i].header.hash];
    assert Holds(pool, o);
  }

  lemma NotYet(rules: Rules, genesis: Header, start: Sums, db: Db, b: Block)
    requires Ready(rules, genesis, start, db, b)
    ensures b.header.hash !in db.blocks
  {
  }

  lemma HashesRight(pool: OrphanBlockPool)
    requires pool.Valid()
    ensures forall h :: h in pool.orphans ==> pool.orphans[h].hash == h
  {
  }

  lemma DoneAtStart(
      rules: Rules, genesis: Header, start: Sums, db: Db, orphans: map<Hash, Orphan>, blockOf: Hash -> Block, low: nat)
    ensures DoneBelow(rules, genesis, start, db, orphans, blockOf, low, db, low)
    ensures StoresBelow(blockOf, orphans, db, db, low) && SameFrom(orphans, orphans, low)
  {
  }

  /** What is held at a height names its blocks still. */
  lemma HeldIsNamed(
      blockOf: Hash -> Block, orphans: map<Hash, Orphan>, db: Db, now: Db, pool: map<Hash, Orphan>, k: nat, o: Orphan)
    requires forall x :: Holds(orphans, x) ==> Names(blockOf, db, x)
    requires forall h :: h in orphans ==> orphans[h].hash == h
    requires StoresBelow(blockOf, orphans, db, now, k) && SameFrom(orphans, pool, k) && Holds(pool, o) && o.height >= k
    ensures Names(blockOf, now, o) && Holds(orphans, o)
  {
    assert Holds(orphans, o);
  }

  lemma StoresMoreBelow(
      blockOf: Hash -> Block, orphans: map<Hash, Orphan>, db: Db, mid: Db, now: Db, held: seq<Orphan>, k: nat)
    requires StoresBelow(blockOf, orphans, db, mid, k) && Stores(blockOf, held, mid, now)
    requires forall o :: o in held ==> Holds(orphans, o) && o.height == k
    ensures StoresBelow(blockOf, orphans, db, now, k + 1) && Grown(mid, now)
  {
  }

  lemma SameAfter(a: map<Hash, Orphan>, b: map<Hash, Orphan>, c: map<Hash, Orphan>, k: nat)
    requires SameFrom(a, b, k) && SameBut(b, c, k)
    ensures SameFrom(a, c, k + 1)
  {
  }

  lemma Shrunk(a: map<Hash, Orphan>, b: map<Hash, Orphan>, k: nat)
    requires SameBut(a, b, k)
    ensures ShrinksFrom(NotAt(a, k), b, k + 1)
  {
  }

  lemma NoneLeft(orphans: map<Hash, Orphan>, height: nat)
    ensures SameBut(orphans, NotAt(orphans, height), height)
    ensures forall h :: h in NotAt(orphans, height) ==> NotAt(orphans, height)[h].height != height
  {
  }

  /** Takes out what is held at one height and offers it. */
  method Pass(
      chain: Chain, pool: OrphanBlockPool, blockOf: Hash -> Block, height: nat, calls: nat, clock: nat -> int)
    returns (held: seq<Orphan>, accepted: seq<Orphan>)
    requires pool.Valid() && chain.Running()
    requires forall o :: Holds(pool.orphans, o) && o.height == height ==> Names(blockOf, chain.db, o)
    modifies pool, chain
    ensures pool.Valid() && chain.Running()
    ensures forall o :: o in held <==> Holds(old(pool.orphans), o) && o.height == height
    ensures SameBut(old(pool.orphans), pool.orphans, height)
    ensures BackAt(chain.rules, chain.genesis, chain.db, blockOf, held, pool.orphans, height)
    ensures Stores(blockOf, held, old(chain.db), chain.db)
    ensures forall o :: o in accepted ==> o in held
    ensures accepted == [] <==> chain.db.blocks == old(chain.db.blocks)
    ensures old(chain.Stuck()) ==> chain.Stuck()
    ensures !old(chain.Stuck()) && HeadersThere(old(chain.db), held) ==> !chain.Stuck()
    ensures chain.Stuck() ||
            StoredIn(chain.rules, chain.genesis, chain.start, old(chain.db), chain.db, blockOf, held)
  {
    hide Chain.Running, Chain.Stuck, SameBut, StoredIn, Stores, Names, Indexed, IndexedRight, BackAt, NotAt, Once;
    held := [];
    ghost var start := pool.orphans;
    var removed := pool.RemoveByHeight(height);
    NoneLeft(start, height);
    if removed.None? {
      StoresNothing(blockOf, held, chain.db);
      NothingStored(chain, chain.db, blockOf, held);
      NothingBack(chain.rules, chain.genesis, chain.db, blockOf, held, pool.orphans, height);
      return held, [];
    }
    held := removed.value;
    accepted := ProcessHeld(chain, pool, blockOf, held, height, calls, clock);
    SameOn(start, NotAt(start, height), pool.orphans, height);
  }

  /** What one pass adds. */
  lemma PassDone(
      chain: Chain, stuck: bool, mid: Db, db: Db, orphans: map<Hash, Orphan>, blockOf: Hash -> Block, low: nat,
      pool: map<Hash, Orphan>, after: map<Hash, Orphan>, held: seq<Orphan>, k: nat)
    requires low <= k && Sound(chain.rules, chain.genesis, chain.start, mid)
    requires Progress(chain, stuck, mid, db, orphans, blockOf, low, pool, k) && (stuck ==> chain.Stuck())
    requires Stores(blockOf, held, mid, chain.db) && SameBut(pool, after, k)
    requires forall h :: h in orphans ==> orphans[h].hash == h
    requires forall o :: o in held <==> Holds(pool, o) && o.height == k
    requires chain.Stuck() || StoredIn(chain.rules, chain.genesis, chain.start, mid, chain.db, blockOf, held)
    ensures Progress(chain, chain.Stuck(), chain.db, db, orphans, blockOf, low, after, k + 1)
    ensures forall o :: o in held ==> Holds(orphans, o) && o.height == k
    ensures chain.Stuck() || chain.db.blocks != mid.blocks ||
            AllDone(chain.rules, chain.genesis, chain.start, db, orphans, blockOf, low, chain.db)
  {
    hide Chain.Stuck, StoresBelow, DoneBelow, AllDone, Sound, StoredIn, Stores, NotAt;
    SameAfter(orphans, pool, after, k);
    assert forall o :: o in held ==> Holds(orphans, o);
    StoresMoreBelow(blockOf, orphans, db, mid, chain.db, held, k);
    if !chain.Stuck() {
      DoneAt(chain.rules, chain.genesis, chain.start, db, orphans, blockOf, low, mid, chain.db, pool, held, k);
    }
  }

  lemma NamedNow(
      chain: Chain, db: Db, orphans: map<Hash, Orphan>, blockOf: Hash -> Block, low: nat,
      pool: map<Hash, Orphan>, k: nat)
    requires Progress(chain, chain.Stuck(), chain.db, db, orphans, blockOf, low, pool, k)
    requires forall o :: Holds(orphans, o) ==> Names(blockOf, db, o)
    requires forall h :: h in orphans ==> orphans[h].hash == h
    ensures forall o :: Holds(pool, o) && o.height == k ==> Names(blockOf, chain.db, o)
  {
    forall o | Holds(pool, o) && o.height == k ensures Names(blockOf, chain.db, o) {
      HeldIsNamed(blockOf, orphans, db, chain.db, pool, k, o);
    }
  }

  lemma ProgressStart(chain: Chain, orphans: map<Hash, Orphan>, blockOf: Hash -> Block, low: nat)
    ensures Progress(chain, chain.Stuck(), chain.db, chain.db, orphans, blockOf, low, orphans, low)
    ensures Passed(orphans, [], low, low)
  {
    DoneAtStart(chain.rules, chain.genesis, chain.start, chain.db, orphans, blockOf, low);
  }

  lemma ProgressIs(
      chain: Chain, db: Db, orphans: map<Hash, Orphan>, blockOf: Hash -> Block, low: nat,
      pool: map<Hash, Orphan>, k: nat)
    requires Progress(chain, chain.Stuck(), chain.db, db, orphans, blockOf, low, pool, k)
    ensures SameFrom(orphans, pool, k) && StoresBelow(blockOf, orphans, db, chain.db, k)
  {
  }

  ghost predicate HeadersFirst(db: Db, orphans: map<Hash, Orphan>) {
    forall h :: h in orphans ==> h in db.headers
  }

  lemma AllHeadersThere(
      chain: Chain, db: Db, orphans: map<Hash, Orphan>, blockOf: Hash -> Block, low: nat,
      pool: map<Hash, Orphan>, k: nat)
    requires Progress(chain, chain.Stuck(), chain.db, db, orphans, blockOf, low, pool, k)
    requires HeadersFirst(db, orphans)
    ensures forall o :: Holds(pool, o) && o.height == k ==> o.hash in chain.db.headers
  {
  }

  /** One height of the drain. */
  method Round(
      chain: Chain, pool: OrphanBlockPool, blockOf: Hash -> Block, ghost db: Db, ghost orphans: map<Hash, Orphan>,
      ghost low: nat, height: nat, calls: nat, clock: nat -> int)
    returns (offered: nat, accepted: seq<Orphan>)
    requires pool.Valid() && chain.Running() && low <= height
    requires Progress(chain, chain.Stuck(), chain.db, db, orphans, blockOf, low, pool.orphans, height)
    requires KeptBack(chain.rules, chain.genesis, chain.db, orphans, blockOf, low, pool.orphans, height)
    requires forall o :: Holds(orphans, o) ==> Names(blockOf, db, o)
    requires forall h :: h in orphans ==> orphans[h].hash == h
    modifies pool, chain
    ensures KeptBack(chain.rules, chain.genesis, chain.db, orphans, blockOf, low, pool.orphans, height + 1)
    ensures pool.Valid() && chain.Running() && (old(chain.Stuck()) ==> chain.Stuck())
    ensures !old(chain.Stuck()) && HeadersFirst(db, orphans) ==> !chain.Stuck()
    ensures Progress(chain, chain.Stuck(), chain.db, db, orphans, blockOf, low, pool.orphans, height + 1)
    ensures forall o :: o in accepted ==> Holds(orphans, o) && o.height == height
    ensures accepted != [] ==> HeldFrom(pool.orphans, height + 1) < HeldFrom(old(pool.orphans), height)
    ensures accepted == [] && !chain.Stuck() ==>
              AllDone(chain.rules, chain.genesis, chain.start, db, orphans, blockOf, low, chain.db)
  {
    hide Chain.Running, Chain.Stuck, SameFrom, AllDone, Sound, StoredIn, Stores, Names, Progress;
    hide OrphanBlockPool.Valid, NotAt, HeldFrom, ShrinksFrom, KeptBack, BackAt, SameBut;
    ProgressIs(chain, db, orphans, blockOf, low, pool.orphans, height);
    ghost var start, mid, stuck := pool.orphans, chain.db, chain.Stuck();
    NamedNow(chain, db, orphans, blockOf, low, start, height);
    StoreOfChain(chain);
    if HeadersFirst(db, orphans) { AllHeadersThere(chain, db, orphans, blockOf, low, start, height); }
    var held;
    held, accepted := Pass(chain, pool, blockOf, height, calls, clock);
    offered := |held|;
    PassDone(chain, stuck, mid, db, orphans, blockOf, low, start, pool.orphans, held, height);
    BackDone(chain.rules, chain.genesis, mid, chain.db, orphans, blockOf, low, start, pool.orphans, held, height);
    if accepted != [] {
      assert accepted[0] in held;
      Shrunk(start, pool.orphans, height);
      MeasureFalls(start, pool.orphans, height, accepted[0]);
    }
  }

  /**
   Works upwards from a height as long as some orphan there is accepted. It ends, although what stays
   an orphan is put back, and every height it passes has had a block accepted that was held when it
   began. What waits is in the pool still, at its height. Held blocks that follow one another from what
   is stored are all accepted, unless a block that is refused leaves the header range stuck. That cannot
   happen where the headers have come before the blocks.
   */
  method CheckOrphans(
      chain: Chain, pool: OrphanBlockPool, blockOf: Hash -> Block, initialHeight: nat, clock: nat -> int)
    returns (height: nat, accepted: seq<Orphan>)
    requires pool.Valid() && chain.Running()
    requires forall o :: Holds(pool.orphans, o) ==> Names(blockOf, chain.db, o)
    modifies pool, chain
    ensures pool.Valid() && chain.Running() && height >= initialHeight
    ensures Passed(old(pool.orphans), accepted, initialHeight, height)
    ensures SameFrom(old(pool.orphans), pool.orphans, height + 1)
    ensures KeptBack(chain.rules, chain.genesis, chain.db, old(pool.orphans), blockOf, initialHeight, pool.orphans,
                     height + 1)
    ensures StoresBelow(blockOf, old(pool.orphans), old(chain.db), chain.db, height + 1)
    ensures old(chain.Stuck()) ==> chain.Stuck()
    ensures !old(chain.Stuck()) && HeadersFirst(old(chain.db), old(pool.orphans)) ==> !chain.Stuck()
    ensures chain.Stuck() ||
            AllDone(chain.rules, chain.genesis, chain.start, old(chain.db), old(pool.orphans), blockOf, initialHeight,
                    chain.db)
  {
    hide Chain.Running, Chain.Stuck, StoresBelow, SameFrom, AllDone, Names, Progress, Passed, HeadersFirst;
    hide OrphanBlockPool.Valid, HeldFrom, KeptBack;
    NoneBack(chain.rules, chain.genesis, chain.db, pool.orphans, blockOf, initialHeight, pool.orphans);
    height, accepted := initialHeight, [];
    var calls: nat := 0;
    ghost var before, db := pool.orphans, chain.db;
    HashesRight(pool);
    ProgressStart(chain, before, blockOf, height);
    while true
      invariant pool.Valid() && chain.Running() && height >= initialHeight
      invariant Progress(chain, chain.Stuck(), chain.db, db, before, blockOf, initialHeight, pool.orphans, height)
      invariant KeptBack(chain.rules, chain.genesis, chain.db, before, blockOf, initialHeight, pool.orphans, height)
      invariant Passed(before, accepted, initialHeight, height)
      invariant old(chain.Stuck()) ==> chain.Stuck()
      invariant !old(chain.Stuck()) && HeadersFirst(db, before) ==> !chain.Stuck()
      decreases HeldFrom(pool.orphans, height)
    {
      var offered, now := Round(chain, pool, blockOf, db, before, initialHeight, height, calls, clock);
      calls := calls + offered;
      if now == [] {
        ProgressIs(chain, db, before, blockOf, initialHeight, pool.orphans, height + 1);
        break;
      }
      PassedMore(before, accepted, now, initialHeight, height);
      accepted := accepted + now;
      height := height + 1;
    }
  }
}
