/**
 The rules a block is checked against, and what it means for stored headers and blocks to have
 passed them on their own branch. Cryptographic checks are parameters.
 */
module BlockRules {
  import opened Options
  import opened ChainTree
  import opened Difficulty

  type Sums = int

  datatype Block = Block(header: Header, body: int)

  /**
   `root` is the root of a header range; `headerOk` compares a header with its parent; `nextBits` is
   the difficulty of a new window, which headers carry from `refactorHeight` on and the auxiliary data
   of a block, checked by `auxOk`, before. The block state is given by the hashes applied, and `utxoOk`
   and `stateOk` check a block against it before and after applying it; `sums` adds a block to the
   running sums of its parent, if they verify.
   */
  datatype Rules = Rules(
    root: seq<Hash> -> Hash,
    powOk: Header -> bool,
    headerOk: (Header, Header) -> bool,
    nextBits: NextBits,
    refactorHeight: nat,
    auxOk: Block -> bool,
    blockOk: Block -> bool,
    utxoOk: (seq<Hash>, Block) -> bool,
    stateOk: (seq<Hash>, Block) -> bool,
    sums: (Sums, Block) -> Option<Sums>)

  /** A header against its parent: one higher, committing to the chain below it, with its bits inside a window. */
  ghost predicate HeaderFollows(rules: Rules, headers: Headers, genesis: Header, h: Header, prev: Header)
    requires Tree(headers, genesis) && Stored(headers, prev)
  {
    && h.prevHash == prev.hash && h.height == prev.height + 1
    && rules.headerOk(h, prev)
    && (h.height >= rules.refactorHeight && !StartsWindow(prev) ==> h.bits == prev.bits)
    && h.prevRoot == rules.root(ChainTo(headers, genesis, prev))
  }

  ghost predicate HeadersSound(rules: Rules, headers: Headers, genesis: Header)
    requires Tree(headers, genesis)
  {
    forall h :: h in headers && headers[h].height > 0 ==> HeaderSound(rules, headers, genesis, h)
  }

  ghost predicate HeaderSound(rules: Rules, headers: Headers, genesis: Header, h: Hash)
    requires Tree(headers, genesis) && h in headers && headers[h].height > 0
  {
    assert Hangs(headers, genesis, h);
    HeaderFollows(rules, headers, genesis, headers[h], Previous(headers, genesis, headers[h]))
  }

  /** The stored blocks have stored headers, and with every block its parent. */
  ghost predicate BlockTree(headers: Headers, genesis: Header, blocks: map<Hash, Block>) {
    && genesis.hash in blocks
    && forall h :: h in blocks ==>
         && h in headers && blocks[h].header == headers[h]
         && (headers[h].height > 0 ==> headers[h].prevHash in blocks)
  }

  /** The running sums at a stored block, from those of genesis. */
  ghost function SumsTo(rules: Rules, headers: Headers, genesis: Header, blocks: map<Hash, Block>, start: Sums,
      h: Header): Option<Sums>
    requires Tree(headers, genesis) && BlockTree(headers, genesis, blocks) && Stored(headers, h) && h.hash in blocks
    decreases h.height
  {
    if h.height == 0 then Some(start)
    else
      match SumsTo(rules, headers, genesis, blocks, start, Previous(headers, genesis, h))
      case None => None
      case Some(s) => rules.sums(s, blocks[h.hash])
  }

  /** A block against the state of its own branch. */
  ghost predicate BlockFollows(
      rules: Rules, headers: Headers, genesis: Header, blocks: map<Hash, Block>, start: Sums, b: Block, prev: Header)
    requires Tree(headers, genesis) && BlockTree(headers, genesis, blocks)
    requires Stored(headers, prev) && prev.hash in blocks
  {
    var state := ChainTo(headers, genesis, prev);
    var sums := SumsTo(rules, headers, genesis, blocks, start, prev);
    && rules.blockOk(b) && rules.utxoOk(state, b) && rules.stateOk(state, b)
    && sums.Some? && rules.sums(sums.value, b).Some?
  }

  ghost predicate BlocksSound(rules: Rules, headers: Headers, genesis: Header, blocks: map<Hash, Block>, start: Sums)
    requires Tree(headers, genesis) && BlockTree(headers, genesis, blocks)
  {
    forall h :: h in blocks && headers[h].height > 0 ==> BlockSound(rules, headers, genesis, blocks, start, h)
  }

  ghost predicate BlockSound(
      rules: Rules, headers: Headers, genesis: Header, blocks: map<Hash, Block>, start: Sums, h: Hash)
    requires Tree(headers, genesis) && BlockTree(headers, genesis, blocks)
    requires h in blocks && headers[h].height > 0
  {
    assert Hangs(headers, genesis, h);
    BlockFollows(rules, headers, genesis, blocks, start, blocks[h], Previous(headers, genesis, headers[h]))
  }

  /** Sums are stored only for stored blocks, and are those of the block's branch. */
  ghost predicate SumsSound(
      rules: Rules, headers: Headers, genesis: Header, blocks: map<Hash, Block>, start: Sums, sums: map<Hash, Sums>)
    requires Tree(headers, genesis) && BlockTree(headers, genesis, blocks)
  {
    forall h :: h in sums ==> h in blocks && SumsAgree(rules, headers, genesis, blocks, start, sums, h)
  }

  ghost predicate SumsAgree(
      rules: Rules, headers: Headers, genesis: Header, blocks: map<Hash, Block>, start: Sums, sums: map<Hash, Sums>,
      h: Hash)
    requires Tree(headers, genesis) && BlockTree(headers, genesis, blocks)
    requires h in sums && h in blocks
  {
    assert Hangs(headers, genesis, h);
    SumsTo(rules, headers, genesis, blocks, start, headers[h]) == Some(sums[h])
  }

  lemma {:induction false} ChainInBlocks(headers: Headers, genesis: Header, blocks: map<Hash, Block>, h: Header, k: nat)
    requires Tree(headers, genesis) && BlockTree(headers, genesis, blocks)
    requires Stored(headers, h) && h.hash in blocks && k <= h.height
    ensures ChainTo(headers, genesis, h)[k] in blocks
    decreases h.height
  {
    if k < h.height { ChainInBlocks(headers, genesis, blocks, Previous(headers, genesis, h), k); }
  }

  /** Storing another header changes no chain. */
  lemma AddHeader(rules: Rules, headers: Headers, genesis: Header, h: Header, prev: Header)
    requires Tree(headers, genesis) && HeadersSound(rules, headers, genesis) && Stored(headers, prev)
    requires HeaderFollows(rules, headers, genesis, h, prev)
    requires h.hash in headers ==> headers[h.hash] == h
    ensures Tree(headers[h.hash := h], genesis) && HeadersSound(rules, headers[h.hash := h], genesis)
    ensures ChainTo(headers[h.hash := h], genesis, h) == ChainTo(headers, genesis, prev) + [h.hash]
  {
    var more := headers[h.hash := h];
    forall x | x in more ensures Hangs(more, genesis, x) {
      if x in headers { assert Hangs(headers, genesis, x); }
    }
    assert Tree(more, genesis);
    ChainKept(headers, more, genesis, prev);
    forall x | x in more && more[x].height > 0 ensures HeaderSound(rules, more, genesis, x) {
      assert Hangs(more, genesis, x);
      if x in headers {
        assert Hangs(headers, genesis, x);
        assert HeaderSound(rules, headers, genesis, x);
        ChainKept(headers, more, genesis, Previous(headers, genesis, headers[x]));
      }
    }
  }

  /** Storing another header leaves blocks and sums as sound as they were. */
  lemma HeaderKeepsBlocks(
      rules: Rules, headers: Headers, more: Headers, genesis: Header, blocks: map<Hash, Block>, start: Sums,
      sums: map<Hash, Sums>)
    requires Tree(headers, genesis) && Tree(more, genesis) && BlockTree(headers, genesis, blocks)
    requires forall x :: x in headers ==> x in more && more[x] == headers[x]
    requires BlocksSound(rules, headers, genesis, blocks, start)
             && SumsSound(rules, headers, genesis, blocks, start, sums)
    ensures BlockTree(more, genesis, blocks)
    ensures BlocksSound(rules, more, genesis, blocks, start) && SumsSound(rules, more, genesis, blocks, start, sums)
  {
    hide Tree;
    assert BlockTree(more, genesis, blocks);
    forall h | h in blocks && more[h].height > 0 ensures BlockSound(rules, more, genesis, blocks, start, h) {
      assert BlockSound(rules, headers, genesis, blocks, start, h);
      StoredBlock(headers, genesis, blocks, h);
      var p := Previous(headers, genesis, headers[h]);
      ChainKept(headers, more, genesis, p);
      SumsKept(rules, headers, more, genesis, blocks, blocks, start, p);
    }
    forall h | h in sums ensures h in blocks && SumsAgree(rules, more, genesis, blocks, start, sums, h) {
      StoredBlock(headers, genesis, blocks, h);
      assert SumsAgree(rules, headers, genesis, blocks, start, sums, h);
      SumsKept(rules, headers, more, genesis, blocks, blocks, start, headers[h]);
    }
  }

  lemma StoredBlock(headers: Headers, genesis: Header, blocks: map<Hash, Block>, h: Hash)
    requires Tree(headers, genesis) && BlockTree(headers, genesis, blocks) && h in blocks
    ensures h in headers && headers[h].hash == h && Stored(headers, headers[h]) && blocks[h].header == headers[h]
    ensures headers[h].height > 0 ==> Previous(headers, genesis, headers[h]).hash in blocks
  {
    assert Hangs(headers, genesis, h);
  }

  lemma {:induction false} SumsKept(
      rules: Rules, headers: Headers, more: Headers, genesis: Header,
      blocks: map<Hash, Block>, moreBlocks: map<Hash, Block>, start: Sums, h: Header)
    requires Tree(headers, genesis) && Tree(more, genesis)
    requires BlockTree(headers, genesis, blocks) && BlockTree(more, genesis, moreBlocks)
    requires forall x :: x in headers ==> x in more && more[x] == headers[x]
    requires forall x :: x in blocks ==> x in moreBlocks && moreBlocks[x] == blocks[x]
    requires Stored(headers, h) && h.hash in blocks
    ensures Stored(more, h) && SumsTo(rules, more, genesis, moreBlocks, start, h) ==
            SumsTo(rules, headers, genesis, blocks, start, h)
    decreases h.height
  {
    if h.height > 0 {
      SumsKept(rules, headers, more, genesis, blocks, moreBlocks, start, Previous(headers, genesis, h));
    }
  }

  /** Storing a block that follows its parent keeps every stored block sound. */
  lemma AddBlock(
      rules: Rules, headers: Headers, genesis: Header, blocks: map<Hash, Block>, start: Sums, sums: map<Hash, Sums>,
      b: Block, prev: Header)
    requires Tree(headers, genesis) && BlockTree(headers, genesis, blocks)
    requires BlocksSound(rules, headers, genesis, blocks, start)
             && SumsSound(rules, headers, genesis, blocks, start, sums)
    requires Stored(headers, b.header) && Stored(headers, prev) && prev.hash in blocks
    requires b.header.prevHash == prev.hash && b.header.height == prev.height + 1
    requires b.header.hash !in blocks
    requires BlockFollows(rules, headers, genesis, blocks, start, b, prev)
    ensures BlockTree(headers, genesis, blocks[b.header.hash := b])
    ensures BlocksSound(rules, headers, genesis, blocks[b.header.hash := b], start)
    ensures SumsSound(rules, headers, genesis, blocks[b.header.hash := b], start, sums)
    ensures SumsTo(rules, headers, genesis, blocks[b.header.hash := b], start, b.header) ==
            rules.sums(SumsTo(rules, headers, genesis, blocks, start, prev).value, b)
  {
    hide Tree;
    var more := blocks[b.header.hash := b];
    assert BlockTree(headers, genesis, more);
    forall h | h in more && headers[h].height > 0 ensures BlockSound(rules, headers, genesis, more, start, h) {
      if h in blocks {
        assert BlockSound(rules, headers, genesis, blocks, start, h);
        StoredBlock(headers, genesis, blocks, h);
        SumsKept(rules, headers, headers, genesis, blocks, more, start, Previous(headers, genesis, headers[h]));
      } else {
        SumsKept(rules, headers, headers, genesis, blocks, more, start, prev);
      }
    }
    SumsKept(rules, headers, headers, genesis, blocks, more, start, prev);
    forall h | h in sums ensures h in more && SumsAgree(rules, headers, genesis, more, start, sums, h) {
      StoredBlock(headers, genesis, blocks, h);
      assert SumsAgree(rules, headers, genesis, blocks, start, sums, h);
      SumsKept(rules, headers, headers, genesis, blocks, more, start, headers[h]);
    }
  }
}
