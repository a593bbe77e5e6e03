/** The chain: a store of headers and blocks, the head, the header range and the block state. */
module ChainState {
  import opened Options
  import opened ChainTree
  import opened Difficulty
  import opened ForkSwitch
  import opened BlockRules
  import opened BlockPipe

  datatype PipeError = Unfit | InvalidPow | Orphan | BadAuxData | InvalidHeader | InvalidBlockProof | Pipe(error: Error)

  datatype PipeResult = Accepted(newHead: Option<Header>) | Rejected(error: PipeError)

  /** The head is the first accepted block of greatest height. */
  ghost predicate FirstOfGreatestHeight(log: seq<Header>, head: Header) {
    exists i :: 0 <= i < |log| && FirstAt(log, head, i)
  }

  ghost predicate FirstAt(log: seq<Header>, head: Header, i: nat)
    requires i < |log|
  {
    && log[i] == head
    && (forall j :: 0 <= j < i ==> log[j].height < head.height)
    && (forall j :: 0 <= j < |log| ==> log[j].height <= head.height)
  }

  /** The log lists the stored blocks, each once. */
  ghost predicate Logged(log: seq<Header>, blocks: map<Hash, Block>) {
    && (forall i :: 0 <= i < |log| ==> log[i].hash in blocks && blocks[log[i].hash].header == log[i])
    && (forall h :: h in blocks ==> blocks[h].header in log)
    && (forall i, j :: 0 <= i < j < |log| ==> log[i].hash != log[j].hash)
  }

  lemma NextInLog(log: seq<Header>, head: Header, h: Header)
    requires FirstOfGreatestHeight(log, head)
    ensures FirstOfGreatestHeight(log + [h], if h.height > head.height then h else head)
  {
    var i :| 0 <= i < |log| && FirstAt(log, head, i);
    if h.height > head.height {
      assert FirstAt(log + [h], h, |log|);
    } else {
      assert FirstAt(log + [h], head, i);
    }
  }

  lemma LogBlock(log: seq<Header>, blocks: map<Hash, Block>, b: Block)
    requires Logged(log, blocks) && b.header.hash !in blocks
    ensures Logged(log + [b.header], blocks[b.header.hash := b])
  {
    var more := blocks[b.header.hash := b];
    forall h | h in more ensures more[h].header in log + [b.header] {
      if h != b.header.hash { assert more[h].header in log; }
    }
  }

  class Chain {
    const rules: Rules
    const genesis: Header
    const start: Sums
    var db: Db
    var head: Header
    /** The header range, by height. */
    var headerMmr: seq<Hash>
    /** The block state, by height. */
    var applied: seq<Hash>
    ghost var headerTip: Header
    /** The blocks accepted so far, in order. */
    ghost var log: seq<Header>

    /** Everything but the header range. */
    ghost predicate StoreValid()
      reads this
    {
      && Sound(rules, genesis, start, db)
      && HasBlock(db, head) && SumsAlong(genesis, db, head)
      && applied == ChainTo(db.headers, genesis, head)
      && Logged(log, db.blocks) && FirstOfGreatestHeight(log, head)
    }

    /** The header range is the chain to a stored header. */
    ghost predicate RangeValid()
      reads this
    {
      && Tree(db.headers, genesis)
      && Stored(db.headers, headerTip) && headerMmr == ChainTo(db.headers, genesis, headerTip)
    }

    /** The header range ends in a header that is not stored. */
    ghost predicate Stuck()
      reads this
    {
      headerMmr != [] && headerMmr[|headerMmr| - 1] !in db.headers
    }

    /** The header range has moved on from the chain to a stored header. */
    ghost predicate Ahead()
      reads this
    {
      && Tree(db.headers, genesis)
      && headerTip.prevHash in db.headers && Stored(db.headers, db.headers[headerTip.prevHash])
      && headerMmr == ChainTo(db.headers, genesis, db.headers[headerTip.prevHash]) + [headerTip.hash]
    }

    ghost predicate Valid()
      reads this
    {
      StoreValid() && RangeValid()
    }

    /** What holds after every call, whatever the blocks and headers offered. */
    ghost predicate Running()
      reads this
    {
      StoreValid() && (RangeValid() || (Stuck() && Ahead()))
    }

    constructor (blockRules: Rules, genesisBlock: Block, genesisSums: Sums)
      requires genesisBlock.header.height == 0
      ensures Valid() && head == genesis == headerTip == genesisBlock.header && log == [genesis] && rules == blockRules
      ensures headerMmr == [genesis.hash]
      ensures var g := genesis.hash; db == Db(map[g := genesis], map[g := genesisBlock], map[g := genesisSums])
    {
      var g := genesisBlock.header;
      rules, genesis, start := blockRules, g, genesisSums;
      db := Db(map[g.hash := g], map[g.hash := genesisBlock], map[g.hash := genesisSums]);
      head, headerTip := g, g;
      headerMmr, applied := [g.hash], [g.hash];
      log := [g];
      new;
      GenesisSound(blockRules, genesisBlock, genesisSums);
      assert FirstAt(log, head, 0);
    }

    /** Seen before, or the parent of the head. */
    predicate Known(h: Hash)
      reads this
    {
      h == head.hash || h == head.prevHash || h in db.blocks
    }

    /** That is: stored, or taken for the parent of genesis while there is nothing else. */
    lemma KnownMeans(h: Hash)
      requires StoreValid()
      ensures Known(h) <==> h in db.blocks || (head == genesis && h == genesis.prevHash)
    {
      hide HeadersSound, BlocksSound, SumsSound, SumsAlong, ChainTo, Logged, FirstOfGreatestHeight;
      assert Hangs(db.headers, genesis, head.hash);
    }

    ghost function ParentOf(h: Header): (p: Header)
      requires StoreValid() && h.prevHash in db.blocks
      reads this
      ensures h.prevHash in db.headers && p == db.headers[h.prevHash] && p.hash == h.prevHash && HasBlock(db, p)
    {
      StoredBlock(db.headers, genesis, db.blocks, h.prevHash);
      db.headers[h.prevHash]
    }

    /** The range the difficulty of a header is looked up in: it has moved already if the header is higher. */
    ghost function CheckedRange(header: Header, prev: Header): seq<Hash>
      requires RangeValid() && Stored(db.headers, prev)
      reads this
    {
      if header.height > headerTip.height then ChainTo(db.headers, genesis, prev) + [header.hash] else headerMmr
    }

    /** A header moves the range if it is higher and commits to the chain below it, right or wrong otherwise. */
    ghost predicate HeaderMoves(header: Header, prev: Header)
      requires RangeValid() && Stored(db.headers, prev)
      reads this
    {
      header.height > headerTip.height && header.prevRoot == rules.root(ChainTo(db.headers, genesis, prev))
    }

    /** A header follows its parent and has the bits the range asks for, unless it is stored and no higher. */
    ghost predicate HeaderPasses(header: Header, prev: Header)
      requires RangeValid() && Stored(db.headers, prev)
      reads this
    {
      && HeaderFollows(rules, db.headers, genesis, header, prev)
      && (header.height >= rules.refactorHeight ==>
            || (Stored(db.headers, header) && header.height <= headerTip.height)
            || BitsOk(rules.nextBits, db.headers, CheckedRange(header, prev), header, prev))
    }

    /** The checks made before the header: known, proof of work, orphan, and the bits of an early block. */
    ghost predicate Fit(b: Block)
      requires StoreValid()
      reads this
    {
      && !Known(b.header.hash) && rules.powOk(b.header)
      && b.header.prevHash in db.blocks
      && (b.header.height < rules.refactorHeight ==>
            rules.auxOk(b) && BitsOk(rules.nextBits, db.headers, headerMmr, b.header, ParentOf(b.header)))
    }

    /** What a block must satisfy. Of the state it is checked in only the header range matters, for the bits. */
    ghost predicate Acceptable(b: Block)
      requires Valid()
      reads this
    {
      && Fit(b) && HeaderPasses(b.header, ParentOf(b.header))
      && BlockFollows(rules, db.headers, genesis, db.blocks, start, b, ParentOf(b.header))
    }

    /** A block moves the range if it gets as far as its header and that one does. */
    ghost predicate Moves(b: Block)
      requires Valid()
      reads this
    {
      Fit(b) && HeaderMoves(b.header, ParentOf(b.header))
    }

    /** The same with the bits the block's own branch asks for. */
    ghost predicate FollowsOwnBranch(b: Block)
      requires Valid()
      reads this
    {
      && !Known(b.header.hash) && rules.powOk(b.header) && b.header.prevHash in db.blocks
      && var prev := ParentOf(b.header);
      && (b.header.height < rules.refactorHeight ==> rules.auxOk(b))
      && HeaderFollows(rules, db.headers, genesis, b.header, prev)
      && BitsOk(rules.nextBits, db.headers, ChainTo(db.headers, genesis, prev), b.header, prev)
      && BlockFollows(rules, db.headers, genesis, db.blocks, start, b, prev)
    }

    /**
     The range cannot decide otherwise than the branch: the block opens no window, or it is checked
     on its own branch, or range and branch hold the same header where the last window was opened.
     */
    ghost predicate Undisputed(b: Block)
      requires Valid() && b.header.prevHash in db.blocks
      reads this
    {
      var prev := ParentOf(b.header);
      var opening := StartHeight(prev);
      || !StartsWindow(prev)
      || (b.header.height >= rules.refactorHeight && b.header.height > headerTip.height)
      || (&& opening < |headerMmr| && headerMmr[opening] == ChainTo(db.headers, genesis, prev)[opening]
          && (b.header.height < rules.refactorHeight || !Stored(db.headers, b.header)))
    }

    /** Undisputed, a block is accepted exactly when it follows its own branch, wherever head and range are. */
    lemma AcceptedOnOwnBranch(b: Block)
      requires Valid() && b.header.prevHash in db.blocks && Undisputed(b)
      ensures Acceptable(b) <==> FollowsOwnBranch(b)
    {
      hide Tree, BlockTree, HeadersSound, BlocksSound, SumsSound, SumsAlong, ChainTo, BlockFollows, Logged;
      hide FirstOfGreatestHeight;
      var prev := ParentOf(b.header);
      var own := ChainTo(db.headers, genesis, prev);
      if StartsWindow(prev) {
        if StartHeight(prev) < |headerMmr| && headerMmr[StartHeight(prev)] == own[StartHeight(prev)] {
          SameStart(rules.nextBits, db.headers, headerMmr, own, prev);
        }
        SameStart(rules.nextBits, db.headers, own + [b.header.hash], own, prev);
      }
    }

    /**
     Stores a header that follows its parent, and moves the header range to it if it is higher than
     the range. The range moves before the header is checked against its parent.
     */
    method AddHeader(header: Header, prev: Header) returns (ok: bool, headers: Headers)
      requires Running() && Stored(db.headers, prev) && prev.hash == header.prevHash
      requires header.hash in db.headers ==> db.headers[header.hash] == header && header.height > 0
      modifies this`headerMmr, this`headerTip
      ensures ok <==> old(RangeValid() && HeaderPasses(header, prev))
      ensures ok ==>
                && header.height == prev.height + 1 && headers == db.headers[header.hash := header]
                && Tree(headers, genesis) && HeadersSound(rules, headers, genesis)
                && Stored(headers, headerTip) && headerMmr == ChainTo(headers, genesis, headerTip)
      ensures old(RangeValid() && HeaderMoves(header, prev)) ==>
                headerMmr == ChainTo(db.headers, genesis, prev) + [header.hash] && headerTip == header
      ensures headerMmr != old(headerMmr) <==> old(RangeValid() && HeaderMoves(header, prev))
      ensures headerMmr == old(headerMmr) ==> headerTip == old(headerTip)
      ensures Stuck() <==> old(Stuck() || (RangeValid() && HeaderMoves(header, prev) && header.hash !in db.headers))
      ensures RangeValid() || (Stuck() && Ahead())
    {
      hide Tree, BlockTree, HeadersSound, BlocksSound, SumsSound, ChainTo, Common, RootAt, Logged;
      hide FirstOfGreatestHeight;
      headers := db.headers;
      var headHash := headerMmr[|headerMmr| - 1];
      if headHash !in db.headers {
        return false, headers;
      }
      var headerHead := db.headers[headHash];
      if header.hash in db.headers && !(db.headers[header.hash].height > headerHead.height) {
        AlreadySound(rules, db.headers, genesis, header, prev);
        assert headers == db.headers[header.hash := header];
        return true, headers;
      }
      var ext := new HeaderExtension(headerMmr, headerHead.height, headerHead.hash);
      forall k | 0 <= k <= prev.height ensures RootAt(rules.root, db.headers, genesis, prev, k) {
        RootsAlong(rules, db.headers, genesis, prev, k);
      }
      var result, _ := RewindAndApplyHeaderFork(prev, ext, db.headers, rules.root, genesis, headerTip);
      if result.Err? {
        return false, headers;
      }
      if !ext.ValidateRoot(rules.root, header) {
        return false, headers;
      }
      ext.ApplyHeader(header);
      ghost var tip := headerTip;
      if header.height > headerHead.height {
        headerMmr := ext.mmr;
        headerTip := header;
        if header.hash in db.headers { StoredChild(db.headers, genesis, header, prev); }
      }
      if header.height != prev.height + 1 || !rules.headerOk(header, prev) {
        return false, headers;
      }
      if header.height >= rules.refactorHeight && !BitsOk(rules.nextBits, db.headers, headerMmr, header, prev) {
        return false, headers;
      }
      headers := headers[header.hash := header];
      BlockRules.AddHeader(rules, db.headers, genesis, header, prev);
      ChainKept(db.headers, headers, genesis, tip);
      ok := true;
    }

    /** A header alone moves the range if its parent is stored, its block is not, and it is higher with a right root. */
    ghost predicate MovesAlone(header: Header)
      reads this
    {
      && RangeValid() && header.prevHash in db.headers && Stored(db.headers, db.headers[header.prevHash])
      && !Known(header.hash) && HeaderMoves(header, db.headers[header.prevHash])
    }

    /** A header received ahead of its block. A known one counts as accepted. */
    method ProcessBlockHeader(header: Header) returns (ok: bool)
      requires Running()
      requires header.hash in db.headers ==> db.headers[header.hash] == header
      modifies this`db, this`headerMmr, this`headerTip
      ensures ok <==>
                old(&& header.prevHash in db.headers
                    && Stored(db.headers, db.headers[header.prevHash])
                    && (Known(header.hash) || (RangeValid() && HeaderPasses(header, db.headers[header.prevHash]))))
      ensures ok && old(RangeValid()) ==> Valid()
      ensures ok ==> db.blocks == old(db.blocks) && db.sums == old(db.sums)
      ensures ok ==>
                db.headers ==
                if old(Known(header.hash)) then old(db.headers) else old(db.headers)[header.hash := header]
      ensures !ok ==> db == old(db)
      ensures old(Stuck()) && !old(Known(header.hash)) ==> !ok
      ensures headerMmr == old(headerMmr) ==> headerTip == old(headerTip)
      ensures old(Stuck()) ==> Stuck() && headerMmr == old(headerMmr)
      ensures Stuck() && !old(Stuck()) ==> !ok && header.hash !in old(db.headers)
      ensures headerMmr != old(headerMmr) <==> old(MovesAlone(header))
      ensures old(MovesAlone(header)) ==>
                headerTip == header &&
                headerMmr == old(ChainTo(db.headers, genesis, db.headers[header.prevHash])) + [header.hash]
      ensures Running()
    {
      hide Tree, BlockTree, HeadersSound, BlocksSound, SumsSound, ChainTo, Logged, FirstOfGreatestHeight;
      if header.prevHash !in db.headers {
        return false;
      }
      var prev := db.headers[header.prevHash];
      ParentStored(db.headers, genesis, header.prevHash);
      if Known(header.hash) {
        return true;
      }
      NotGenesis(rules, genesis, start, db, header);
      var headers;
      ok, headers := AddHeader(header, prev);
      if ok {
        KeepBlocks(headers);
        db := db.(headers := headers);
      }
    }

    /** More headers leave everything that is about blocks as it was. */
    lemma KeepBlocks(headers: Headers)
      requires Sound(rules, genesis, start, db) && HasBlock(db, head) && SumsAlong(genesis, db, head)
      requires applied == ChainTo(db.headers, genesis, head)
      requires Tree(headers, genesis) && HeadersSound(rules, headers, genesis)
      requires forall x :: x in db.headers ==> x in headers && headers[x] == db.headers[x]
      ensures var more := db.(headers := headers);
              && Sound(rules, genesis, start, more)
              && HasBlock(more, head) && SumsAlong(genesis, more, head)
              && applied == ChainTo(headers, genesis, head)
    {
      hide Tree, BlockTree, HeadersSound, BlocksSound, SumsSound, ChainTo;
      HeaderKeepsBlocks(rules, db.headers, headers, genesis, db.blocks, start, db.sums);
      ChainKept(db.headers, headers, genesis, head);
    }

    /** The checks made before anything is touched: known, proof of work, orphan. */
    method CheckBlock(b: Block) returns (error: Option<PipeError>, prev: Header)
      requires StoreValid()
      ensures error.None? <==> !Known(b.header.hash) && rules.powOk(b.header) && b.header.prevHash in db.blocks
      ensures error.None? ==> prev == ParentOf(b.header)
      ensures error == Some(Unfit) <==> Known(b.header.hash)
      ensures error == Some(InvalidPow) <==> !Known(b.header.hash) && !rules.powOk(b.header)
      ensures error == Some(Orphan) <==>
                !Known(b.header.hash) && rules.powOk(b.header) && b.header.prevHash !in db.blocks
    {
      hide Tree, BlockTree, HeadersSound, BlocksSound, SumsSound, ChainTo, Logged, FirstOfGreatestHeight, SumsAlong;
      prev := head;
      if Known(b.header.hash) {
        return Some(Unfit), prev;
      }
      if !rules.powOk(b.header) {
        return Some(InvalidPow), prev;
      }
      if b.header.prevHash !in db.headers {
        OrphanIsNoBlock(db.headers, genesis, db.blocks, b.header.prevHash);
        return Some(Orphan), prev;
      }
      prev := db.headers[b.header.prevHash];
      ParentStored(db.headers, genesis, b.header.prevHash);
      if b.header.prevHash != head.hash && prev.hash !in db.blocks {
        return Some(Orphan), prev;
      }
      return None, prev;
    }

    /**
     Runs a block through the pipeline. Accepted, it is stored and, if higher than the head, becomes
     the head. Rejected, it changes nothing but the header range, and that exactly when it gets as far
     as its header and the header moves it. A range moved to a header that is not stored stays there
     whatever blocks and single headers follow, and all those blocks are rejected.
     */
    method ProcessBlock(b: Block) returns (result: PipeResult)
      requires Running()
      requires b.header.hash in db.headers ==> db.headers[b.header.hash] == b.header
      modifies this
      ensures Running()
      ensures result.Accepted? <==> old(RangeValid() && Acceptable(b))
      ensures result.Accepted? ==> Valid()
      ensures result.Accepted? ==>
                && db.headers == old(db.headers)[b.header.hash := b.header]
                && db.blocks == old(db.blocks)[b.header.hash := b]
                && log == old(log) + [b.header]
                && head == (if b.header.height > old(head).height then b.header else old(head))
                && result.newHead == (if b.header.height > old(head).height then Some(b.header) else None)
      ensures result == Rejected(Orphan) <==>
                old(!Known(b.header.hash) && rules.powOk(b.header) && b.header.prevHash !in db.blocks)
      ensures result == Rejected(Unfit) <==> old(Known(b.header.hash))
      ensures result == Rejected(InvalidPow) <==> old(!Known(b.header.hash) && !rules.powOk(b.header))
      ensures result == Rejected(BadAuxData) <==>
                old(&& !Known(b.header.hash) && rules.powOk(b.header) && b.header.prevHash in db.blocks && !Fit(b))
      ensures result.Rejected? ==>
                db == old(db) && head == old(head) && applied == old(applied) && log == old(log)
      ensures old(RangeValid() && Moves(b)) ==>
                headerMmr == old(ChainTo(db.headers, genesis, ParentOf(b.header))) + [b.header.hash]
                  && headerTip == b.header
      ensures headerMmr != old(headerMmr) <==> old(RangeValid() && Moves(b))
      ensures headerMmr == old(headerMmr) ==> headerTip == old(headerTip)
      ensures Stuck() <==>
                || old(Stuck())
                || (result.Rejected? && old(RangeValid() && Moves(b)) && b.header.hash !in old(db.headers))
    {
      hide Sound, Tree, BlockTree, HeadersSound, BlocksSound, SumsSound, ChainTo, Logged, FirstOfGreatestHeight, SumsTo;
      hide HeaderFollows, BlockFollows, SumsAlong, BitsOk, HasBlock, CheckedRange, HeaderPasses, HeaderMoves;
      StoreIsTree();
      var error, prev := CheckBlock(b);
      if error.Some? {
        return Rejected(error.value);
      }
      if b.header.height < rules.refactorHeight &&
         (!rules.auxOk(b) || !BitsOk(rules.nextBits, db.headers, headerMmr, b.header, prev)) {
        return Rejected(BadAuxData);
      }
      NotGenesis(rules, genesis, start, db, b.header);
      var ok, headers := AddHeader(b.header, prev);
      if !ok {
        return Rejected(InvalidHeader);
      }
      result := StoreIfFollows(b, prev, headers);
    }

    lemma StoreIsTree()
      requires StoreValid()
      ensures Tree(db.headers, genesis) && BlockTree(db.headers, genesis, db.blocks)
    {
    }

    /** The rest of the pipeline, once the header has passed. */
    method StoreIfFollows(b: Block, prev: Header, headers: Headers) returns (result: PipeResult)
      requires StoreValid() && HasBlock(db, prev) && !Known(b.header.hash)
      requires b.header.prevHash == prev.hash && b.header.height == prev.height + 1
      requires b.header.hash in db.headers ==> db.headers[b.header.hash] == b.header
      requires headers == db.headers[b.header.hash := b.header]
      requires Tree(headers, genesis) && HeadersSound(rules, headers, genesis)
      requires Stored(headers, headerTip) && headerMmr == ChainTo(headers, genesis, headerTip)
      modifies this`db, this`applied, this`head, this`log
      ensures result.Accepted? <==>
                old(Tree(db.headers, genesis) && BlockTree(db.headers, genesis, db.blocks) &&
                    BlockFollows(rules, db.headers, genesis, db.blocks, start, b, prev))
      ensures result.Accepted? ==> Valid()
      ensures result.Accepted? ==>
                && db.headers == headers && db.blocks == old(db.blocks)[b.header.hash := b]
                && log == old(log) + [b.header]
                && head == (if b.header.height > old(head).height then b.header else old(head))
                && result.newHead == (if b.header.height > old(head).height then Some(b.header) else None)
      ensures result.Rejected? ==>
                && db == old(db) && head == old(head) && applied == old(applied) && log == old(log)
                && (result.error.Pipe? || result.error == InvalidBlockProof) && StoreValid()
    {
      hide Tree, BlockTree, HeadersSound, BlocksSound, SumsSound, ChainTo, Logged, FirstOfGreatestHeight, SumsTo;
      hide BlockFollows, SumsAlong, Resummed;
      KeepBlocks(headers);
      BranchKept(rules, genesis, start, db, headers, b, prev);
      if !rules.blockOk(b) {
        NotFollowing(rules, db.headers, genesis, db.blocks, start, b, prev);
        return Rejected(InvalidBlockProof);
      }
      var batch := db.(headers := headers);
      var failure, sums, state := Extend(b, prev, batch);
      if failure.Some? {
        return Rejected(Pipe(failure.value));
      }
      var moreWork := b.header.height > head.height;
      StoreBlock(batch, b, prev, sums, state, moreWork);
      if moreWork {
        db := Db(headers, db.blocks[b.header.hash := b], sums);
        applied := state;
      } else {
        db := Db(headers, db.blocks[b.header.hash := b], db.sums);
      }
      NextInLog(log, head, b.header);
      log := log + [b.header];
      if moreWork {
        head := b.header;
        return Accepted(Some(b.header));
      }
      return Accepted(None);
    }

    /** The unit of work of one block: switch to its branch, check it there, add its sums, apply it. */
    method Extend(b: Block, prev: Header, batch: Db)
      returns (error: Option<Error>, sums: map<Hash, Sums>, state: seq<Hash>)
      requires Sound(rules, genesis, start, batch)
      requires HasBlock(batch, head) && SumsAlong(genesis, batch, head)
               && applied == ChainTo(batch.headers, genesis, head)
      requires Stored(batch.headers, headerTip) && headerMmr == ChainTo(batch.headers, genesis, headerTip)
      requires HasBlock(batch, prev) && b.header.prevHash == prev.hash && rules.blockOk(b)
      ensures error.None? <==> BlockFollows(rules, batch.headers, genesis, batch.blocks, start, b, prev)
      ensures error.None? ==>
                && state == ChainTo(batch.headers, genesis, prev) + [b.header.hash]
                && exists before :: Resummed(batch, prev, before, sums, b)
    {
      hide Tree, BlockTree, HeadersSound, BlocksSound, SumsSound, ChainTo, SumsTo;
      sums, state := batch.sums, applied;
      var headHash := headerMmr[|headerMmr| - 1];
      if headHash !in batch.headers {
        return Some(NotFound), sums, state;
      }
      var hext := new HeaderExtension(headerMmr, batch.headers[headHash].height, headHash);
      var ext := new Extension(applied);
      var switched;
      switched, sums := RewindAndApplyFork(prev, hext, ext, batch, head, rules, genesis, start, headerTip);
      match switched {
        case Err(e) => return Some(e), sums, state;
        case Ok =>
      }
      ghost var before := sums;
      SumsOfParent(rules, genesis, start, batch, sums, prev);
      if !rules.utxoOk(ext.applied, b) {
        return Some(InvalidBlock), sums, state;
      }
      if b.header.prevHash !in sums {
        return Some(SumsNotFound), sums, state;
      }
      var s := rules.sums(sums[b.header.prevHash], b);
      if s.None? {
        return Some(BadSums), sums, state;
      }
      if !rules.stateOk(ext.applied, b) {
        return Some(InvalidBlock), sums, state;
      }
      sums := sums[b.header.hash := s.value];
      ext.ApplyBlock(b);
      assert Resummed(batch, prev, before, sums, b);
      return None, sums, ext.applied;
    }

    /** The sums after the switch, with those of the new block. */
    ghost predicate Resummed(batch: Db, prev: Header, before: map<Hash, Sums>, sums: map<Hash, Sums>, b: Block)
      requires HasBlock(batch, prev)
    {
      && Sound(rules, genesis, start, batch.(sums := before))
      && SumsAlong(genesis, batch.(sums := before), prev)
      && prev.hash in before && rules.sums(before[prev.hash], b).Some?
      && sums == before[b.header.hash := rules.sums(before[prev.hash], b).value]
    }

    /** With the block stored, the state is that of the head before or after, by height. */
    lemma StoreBlock(batch: Db, b: Block, prev: Header, sums: map<Hash, Sums>, state: seq<Hash>, moreWork: bool)
      requires Sound(rules, genesis, start, batch)
      requires HasBlock(batch, head) && SumsAlong(genesis, batch, head)
               && applied == ChainTo(batch.headers, genesis, head)
      requires Logged(log, batch.blocks)
      requires HasBlock(batch, prev) && Stored(batch.headers, b.header) && b.header.hash !in batch.blocks
      requires b.header.prevHash == prev.hash && b.header.height == prev.height + 1
      requires BlockFollows(rules, batch.headers, genesis, batch.blocks, start, b, prev)
      requires state == ChainTo(batch.headers, genesis, prev) + [b.header.hash]
      requires exists before :: Resummed(batch, prev, before, sums, b)
      ensures var after := Db(batch.headers, batch.blocks[b.header.hash := b], if moreWork then sums else batch.sums);
              var tip := if moreWork then b.header else head;
              && Sound(rules, genesis, start, after)
              && HasBlock(after, tip) && SumsAlong(genesis, after, tip)
              && (if moreWork then state else applied) == ChainTo(after.headers, genesis, tip)
              && Logged(log + [b.header], after.blocks)
    {
      hide Tree, BlockTree, HeadersSound, BlocksSound, SumsSound, Logged, SumsTo;
      var blocks := batch.blocks[b.header.hash := b];
      LogBlock(log, batch.blocks, b);
      AddBlock(rules, batch.headers, genesis, batch.blocks, start, batch.sums, b, prev);
      if moreWork {
        var before :| Resummed(batch, prev, before, sums, b);
        AddBlock(rules, batch.headers, genesis, batch.blocks, start, before, b, prev);
        SumsOfParent(rules, genesis, start, batch, before, prev);
        SaveSums(rules, genesis, start, Db(batch.headers, blocks, before), before, b.header.hash, sums[b.header.hash]);
        ChainStep(batch.headers, genesis, b.header, prev);
        forall k | 0 <= k <= b.header.height ensures ChainTo(batch.headers, genesis, b.header)[k] in sums {
          if k <= prev.height { assert ChainTo(batch.headers, genesis, prev)[k] in before; }
        }
      }
    }
  }

  lemma AlreadySound(rules: Rules, headers: Headers, genesis: Header, header: Header, prev: Header)
    requires Tree(headers, genesis) && HeadersSound(rules, headers, genesis)
    requires Stored(headers, prev) && header.prevHash == prev.hash && Stored(headers, header) && header.height > 0
    ensures HeaderFollows(rules, headers, genesis, header, prev)
  {
    assert HeaderSound(rules, headers, genesis, header.hash);
  }

  lemma NotFollowing(
      rules: Rules, headers: Headers, genesis: Header, blocks: map<Hash, Block>, start: Sums, b: Block, prev: Header)
    requires Tree(headers, genesis) && BlockTree(headers, genesis, blocks)
    requires Stored(headers, prev) && prev.hash in blocks && !rules.blockOk(b)
    ensures !BlockFollows(rules, headers, genesis, blocks, start, b, prev)
  {
  }

  lemma ChainStep(headers: Headers, genesis: Header, h: Header, prev: Header)
    requires Tree(headers, genesis) && Stored(headers, h) && Stored(headers, prev)
    requires h.prevHash == prev.hash && h.height == prev.height + 1
    ensures ChainTo(headers, genesis, h) == ChainTo(headers, genesis, prev) + [h.hash]
  {
  }

  lemma StoredChild(headers: Headers, genesis: Header, h: Header, prev: Header)
    requires Tree(headers, genesis) && Stored(headers, h) && Stored(headers, prev)
    requires h.prevHash == prev.hash && h.height > 0
    ensures ChainTo(headers, genesis, h) == ChainTo(headers, genesis, prev) + [h.hash]
  {
    assert Hangs(headers, genesis, h.hash);
  }

  lemma ParentStored(headers: Headers, genesis: Header, h: Hash)
    requires Tree(headers, genesis) && h in headers
    ensures headers[h].hash == h && Stored(headers, headers[h])
  {
    assert Hangs(headers, genesis, h);
  }

  lemma OrphanIsNoBlock(headers: Headers, genesis: Header, blocks: map<Hash, Block>, h: Hash)
    requires BlockTree(headers, genesis, blocks) && h !in headers
    ensures h !in blocks
  {
  }

  /** A header at height zero in the store is genesis, which is a stored block. */
  lemma NotGenesis(rules: Rules, genesis: Header, start: Sums, db: Db, header: Header)
    requires Sound(rules, genesis, start, db) && header.hash !in db.blocks
    requires header.hash in db.headers ==> db.headers[header.hash] == header
    ensures header.hash in db.headers ==> header.height > 0
  {
    if header.hash in db.headers { assert Hangs(db.headers, genesis, header.hash); }
  }

  lemma SumsOfParent(rules: Rules, genesis: Header, start: Sums, db: Db, sums: map<Hash, Sums>, prev: Header)
    requires Sound(rules, genesis, start, db.(sums := sums)) && HasBlock(db, prev)
    requires SumsAlong(genesis, db.(sums := sums), prev)
    ensures prev.hash in sums
    ensures SumsTo(rules, db.headers, genesis, db.blocks, start, prev) == Some(sums[prev.hash])
  {
    assert ChainTo(db.headers, genesis, prev)[prev.height] in sums;
    assert SumsAgree(rules, db.headers, genesis, db.blocks, start, sums, prev.hash);
  }

  /** Storing the header changes nothing of what the block is checked against. */
  lemma BranchKept(rules: Rules, genesis: Header, start: Sums, db: Db, headers: Headers, b: Block, prev: Header)
    requires Tree(db.headers, genesis) && Tree(headers, genesis)
    requires BlockTree(db.headers, genesis, db.blocks) && BlockTree(headers, genesis, db.blocks)
    requires forall x :: x in db.headers ==> x in headers && headers[x] == db.headers[x]
    requires HasBlock(db, prev)
    ensures Stored(headers, prev)
    ensures ChainTo(headers, genesis, prev) == ChainTo(db.headers, genesis, prev)
    ensures BlockFollows(rules, headers, genesis, db.blocks, start, b, prev) <==>
            BlockFollows(rules, db.headers, genesis, db.blocks, start, b, prev)
  {
    hide Tree, BlockTree;
    ChainKept(db.headers, headers, genesis, prev);
    SumsKept(rules, db.headers, headers, genesis, db.blocks, db.blocks, start, prev);
  }

  lemma GenesisSound(rules: Rules, b: Block, sums: Sums)
    requires b.header.height == 0
    ensures var g := b.header; var db := Db(map[g.hash := g], map[g.hash := b], map[g.hash := sums]);
            Sound(rules, g, sums, db) && SumsAlong(g, db, g) && ChainTo(db.headers, g, g) == [g.hash]
  {
    var g := b.header;
    var db := Db(map[g.hash := g], map[g.hash := b], map[g.hash := sums]);
    assert forall h :: h in db.headers ==> Hangs(db.headers, g, h);
    assert SumsAgree(rules, db.headers, g, db.blocks, sums, db.sums, g.hash);
  }
}
