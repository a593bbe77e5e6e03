/** Accepting blocks: the full fork switch, and the state machine over stored blocks, head and sums. */
module BlockPipe {
  import opened Options
  import opened ChainTree
  import opened Collections
  import opened ForkSwitch
  import opened BlockRules

  /** The block state: the hashes of the blocks applied, by height. */
  class Extension {
    var applied: seq<Hash>

    constructor (blocks: seq<Hash>)
      ensures applied == blocks
    {
      applied := blocks;
    }

    method Rewind(header: Header)
      requires header.height < |applied|
      modifies this
      ensures applied == old(applied)[..header.height + 1]
    {
      applied := applied[..header.height + 1];
    }

    method ApplyBlock(b: Block)
      modifies this
      ensures applied == old(applied) + [b.header.hash]
    {
      applied := applied + [b.header.hash];
    }
  }

  /** What is stored: headers, blocks, and the sums of blocks whose branch is or was the chain of the head. */
  datatype Db = Db(headers: Headers, blocks: map<Hash, Block>, sums: map<Hash, Sums>)

  ghost predicate Sound(rules: Rules, genesis: Header, start: Sums, db: Db) {
    && Tree(db.headers, genesis) && HeadersSound(rules, db.headers, genesis)
    && BlockTree(db.headers, genesis, db.blocks) && BlocksSound(rules, db.headers, genesis, db.blocks, start)
    && SumsSound(rules, db.headers, genesis, db.blocks, start, db.sums)
  }

  ghost predicate HasBlock(db: Db, h: Header) {
    Stored(db.headers, h) && h.hash in db.blocks
  }

  /** Every block from genesis to `h` has its sums stored. */
  ghost predicate SumsAlong(genesis: Header, db: Db, h: Header)
    requires Tree(db.headers, genesis) && Stored(db.headers, h)
  {
    forall k :: 0 <= k <= h.height ==> ChainTo(db.headers, genesis, h)[k] in db.sums
  }

  /** A stored header with a sound store commits to the chain below it at every height. */
  lemma RootsAlong(rules: Rules, headers: Headers, genesis: Header, h: Header, k: nat)
    requires Tree(headers, genesis) && HeadersSound(rules, headers, genesis) && Stored(headers, h) && k <= h.height
    ensures RootAt(rules.root, headers, genesis, h, k)
  {
    var a := Ancestor(headers, genesis, h, k);
    if k > 0 {
      assert HeaderSound(rules, headers, genesis, a.hash);
      var p := Previous(headers, genesis, a);
      assert ChainTo(headers, genesis, a) == ChainTo(headers, genesis, p) + [a.hash];
      assert ChainTo(headers, genesis, h)[..k] == ChainTo(headers, genesis, a)[..k];
    }
  }

  /** The next block of a stored branch passes every check again, and finds the sums of its parent. */
  lemma NextFollows(rules: Rules, genesis: Header, start: Sums, db: Db, sums: map<Hash, Sums>, header: Header, k: nat)
    requires Sound(rules, genesis, start, db.(sums := sums)) && HasBlock(db, header) && 0 < k <= header.height
    requires ChainTo(db.headers, genesis, header)[k - 1] in sums
    ensures var chain := ChainTo(db.headers, genesis, header);
            && chain[k] in db.blocks && chain[k] in db.headers && db.headers[chain[k]].hash == chain[k]
            && var b := db.blocks[chain[k]];
            && b.header.hash == chain[k] && b.header.prevHash == chain[k - 1]
            && rules.utxoOk(chain[..k], b) && rules.stateOk(chain[..k], b)
            && rules.sums(sums[chain[k - 1]], b).Some?
            && SumsTo(rules, db.headers, genesis, db.blocks, start, db.headers[chain[k]]) ==
              rules.sums(sums[chain[k - 1]], b)
  {
    var headers, blocks := db.headers, db.blocks;
    var chain := ChainTo(headers, genesis, header);
    ChainInBlocks(headers, genesis, blocks, header, k);
    var a := Ancestor(headers, genesis, header, k);
    StoredBlock(headers, genesis, blocks, a.hash);
    assert BlockSound(rules, headers, genesis, blocks, start, a.hash);
    var p := Previous(headers, genesis, a);
    assert ChainTo(headers, genesis, a) == ChainTo(headers, genesis, p) + [a.hash];
    assert chain[..k] == ChainTo(headers, genesis, a)[..k];
    assert p.hash == chain[k - 1];
    assert SumsAgree(rules, headers, genesis, blocks, start, sums, p.hash);
  }

  lemma SaveSums(rules: Rules, genesis: Header, start: Sums, db: Db, sums: map<Hash, Sums>, h: Hash, s: Sums)
    requires Sound(rules, genesis, start, db.(sums := sums)) && h in db.blocks && h in db.headers
    requires Stored(db.headers, db.headers[h]) && db.headers[h].hash == h
    requires SumsTo(rules, db.headers, genesis, db.blocks, start, db.headers[h]) == Some(s)
    ensures Sound(rules, genesis, start, db.(sums := sums[h := s]))
  {
    hide Tree, BlockTree, HeadersSound, BlocksSound, SumsTo;
    var more := sums[h := s];
    forall x | x in more ensures x in db.blocks && SumsAgree(rules, db.headers, genesis, db.blocks, start, more, x) {
      if x != h { assert SumsAgree(rules, db.headers, genesis, db.blocks, start, sums, x); }
    }
  }

  /**
   Moves the block state to any stored branch. It never fails: everything the branch needs is
   stored, every check passed before passes again, and sums that a losing branch had given up are
   computed anew on the way.
   */
  method RewindAndApplyFork(
    header: Header, hext: HeaderExtension, ext: Extension, db: Db, head: Header, rules: Rules,
    ghost genesis: Header, ghost start: Sums, ghost tip: Header)
    returns (result: Outcome, sums: map<Hash, Sums>)
    requires Sound(rules, genesis, start, db)
    requires HasBlock(db, header) && HasBlock(db, head) && Stored(db.headers, tip)
    requires hext.At(db.headers, genesis, tip)
    requires ext.applied == ChainTo(db.headers, genesis, head) && SumsAlong(genesis, db, head)
    modifies hext, ext
    ensures result.Ok?
    ensures hext.At(db.headers, genesis, header)
    ensures ext.applied == ChainTo(db.headers, genesis, header)
    ensures Sound(rules, genesis, start, db.(sums := sums)) && SumsAlong(genesis, db.(sums := sums), header)
    ensures forall h :: h in db.sums ==> h in sums && sums[h] == db.sums[h]
  {
    hide Tree, BlockTree, HeadersSound, BlocksSound, SumsSound, ChainTo, Common, SumsTo, RootAt;
    sums := db.sums;
    forall k | 0 <= k <= header.height ensures RootAt(rules.root, db.headers, genesis, header, k) {
      RootsAlong(rules, db.headers, genesis, header, k);
    }
    ghost var applied;
    result, applied := RewindAndApplyHeaderFork(header, hext, db.headers, rules.root, genesis, tip);
    if result.Err? {
      return;
    }
    var found, forkPoint, _ := CollectFork(head, hext, db.headers, genesis, header);
    if !found {
      return Err(NotFound), sums;
    }
    ghost var chain := ChainTo(db.headers, genesis, header);
    ext.Rewind(forkPoint);
    ghost var n := forkPoint.height + 1;
    assert ext.applied == chain[..n];

    var forkHashes := HashesAfter(header, forkPoint, db.headers, genesis);
    forall k | 0 <= k < n ensures chain[k] in db.sums {
      assert chain[..n][k] == ChainTo(db.headers, genesis, head)[..n][k];
    }
    result, sums := ApplyFork(header, forkHashes, ext, db, rules, genesis, start, n);
  }

  /** Applies the stored blocks of a branch from height `n` on. */
  method ApplyFork(
    ghost header: Header, forkHashes: seq<Hash>, ext: Extension, db: Db, rules: Rules,
    ghost genesis: Header, ghost start: Sums, ghost n: nat)
    returns (result: Outcome, sums: map<Hash, Sums>)
    requires Sound(rules, genesis, start, db) && HasBlock(db, header) && 0 < n <= header.height + 1
    requires forkHashes == ChainTo(db.headers, genesis, header)[n..]
    requires ext.applied == ChainTo(db.headers, genesis, header)[..n]
    requires forall k :: 0 <= k < n ==> ChainTo(db.headers, genesis, header)[k] in db.sums
    modifies ext
    ensures result.Ok?
    ensures ext.applied == ChainTo(db.headers, genesis, header)
    ensures Sound(rules, genesis, start, db.(sums := sums)) && SumsAlong(genesis, db.(sums := sums), header)
    ensures forall h :: h in db.sums ==> h in sums && sums[h] == db.sums[h]
  {
    hide Tree, BlockTree, HeadersSound, BlocksSound, SumsSound, ChainTo, SumsTo;
    ghost var chain := ChainTo(db.headers, genesis, header);
    sums := db.sums;
    assert db.(sums := sums) == db;
    for i := 0 to |forkHashes|
      invariant ext.applied == chain[..n + i]
      invariant Sound(rules, genesis, start, db.(sums := sums))
      invariant forall k :: 0 <= k < n + i ==> chain[k] in sums
      invariant forall h :: h in db.sums ==> h in sums && sums[h] == db.sums[h]
    {
      NextFollows(rules, genesis, start, db, sums, header, n + i);
      var h := forkHashes[i];
      if h !in db.blocks {
        return Err(NotFound), sums;
      }
      var fb := db.blocks[h];
      if !rules.utxoOk(ext.applied, fb) {
        return Err(InvalidBlock), sums;
      }
      if fb.header.prevHash !in sums {
        return Err(SumsNotFound), sums;
      }
      var s := rules.sums(sums[fb.header.prevHash], fb);
      if s.None? {
        return Err(BadSums), sums;
      }
      SaveSums(rules, genesis, start, db, sums, h, s.value);
      KeepsStoredSums(rules, genesis, start, db, h, s.value);
      sums := sums[fb.header.hash := s.value];
      if !rules.stateOk(ext.applied, fb) {
        return Err(InvalidBlock), sums;
      }
      ext.ApplyBlock(fb);
    }
    result := Ok;
  }

  /** Sums computed again are those that may still be stored. */
  lemma KeepsStoredSums(rules: Rules, genesis: Header, start: Sums, db: Db, h: Hash, s: Sums)
    requires Sound(rules, genesis, start, db) && h in db.blocks && h in db.headers
    requires Stored(db.headers, db.headers[h]) && db.headers[h].hash == h
    requires SumsTo(rules, db.headers, genesis, db.blocks, start, db.headers[h]) == Some(s)
    ensures h in db.sums ==> db.sums[h] == s
  {
    if h in db.sums { assert SumsAgree(rules, db.headers, genesis, db.blocks, start, db.sums, h); }
  }

  /** The hashes of a branch past a lower header on it, first to last. */
  method HashesAfter(header: Header, low: Header, headers: Headers, ghost genesis: Header) returns (hashes: seq<Hash>)
    requires Tree(headers, genesis) && Stored(headers, header) && low.height <= header.height
    ensures hashes == ChainTo(headers, genesis, header)[low.height + 1..]
  {
    hide Tree, Walked, ChainTo;
    hashes := [];
    var current := header;
    WalkStart(headers, genesis, header);
    while current.height > low.height
      invariant Walked(headers, genesis, header, current, hashes) && current.height >= low.height
      decreases current.height
    {
      WalkBack(headers, genesis, header, current, hashes);
      hashes := hashes + [current.hash];
      current := headers[current.prevHash];
    }
    WalkedAt(headers, genesis, header, current, hashes);
    WalkedReversed(headers, genesis, header, current, hashes);
    hashes := Reverse(hashes);
  }
}
