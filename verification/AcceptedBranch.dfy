/** The output set and the block pipeline together: a branch of accepted blocks can always be switched to. */
module AcceptedBranch {
  import opened ChainTree
  import opened BlockRules
  import opened BlockPipe
  import opened OutputSets
  import opened ForkState
  import History

  /** A block passes the check of its inputs only if they are distinct outputs unspent in the state given. */
  ghost predicate ChecksInputs(rules: Rules, bodies: Bodies) {
    forall state: seq<Hash>, b: Block ::
      Has(bodies, state) && b.header.hash in bodies && rules.utxoOk(state, b) ==>
        SpendsUnspent(bodies, state, b.header.hash)
  }

  ghost predicate SpendsUnspent(bodies: Bodies, state: seq<Hash>, h: Hash)
    requires Has(bodies, state) && h in bodies
  {
    Spendable(History.UnspentAt(BlocksOf(bodies, state), |state|), bodies[h].inputs)
  }

  /** Every accepted block was checked in the state of its own branch. */
  lemma CheckedOnBranch(rules: Rules, genesis: Header, start: Sums, db: Db, header: Header, k: nat)
    requires Sound(rules, genesis, start, db) && HasBlock(db, header) && 0 < k <= header.height
    ensures var chain := ChainTo(db.headers, genesis, header);
            && chain[k] in db.blocks && db.blocks[chain[k]].header.hash == chain[k]
            && rules.utxoOk(chain[..k], db.blocks[chain[k]])
  {
    hide Tree, SumsTo;
    var headers, blocks := db.headers, db.blocks;
    var chain := ChainTo(headers, genesis, header);
    ChainInBlocks(headers, genesis, blocks, header, k);
    var a := Ancestor(headers, genesis, header, k);
    StoredBlock(headers, genesis, blocks, a.hash);
    assert BlockSound(rules, headers, genesis, blocks, start, a.hash);
    var p := Previous(headers, genesis, a);
    assert ChainTo(headers, genesis, a) == ChainTo(headers, genesis, p) + [a.hash];
    assert chain[..k] == ChainTo(headers, genesis, a)[..k];
  }

  /** So on a branch of accepted blocks each one spends what is unspent before it. */
  lemma AcceptedFollows(rules: Rules, genesis: Header, start: Sums, db: Db, bodies: Bodies, header: Header)
    requires Sound(rules, genesis, start, db) && HasBlock(db, header) && ChecksInputs(rules, bodies)
    requires Has(bodies, ChainTo(db.headers, genesis, header))
    ensures var chain := ChainTo(db.headers, genesis, header);
            forall k :: 0 < k < |chain| ==> Follows(bodies, chain, k)
  {
    hide ChainTo, Tree, Spendable, BlocksOf;
    var chain := ChainTo(db.headers, genesis, header);
    forall k | 0 < k < |chain| ensures Follows(bodies, chain, k) {
      CheckedOnBranch(rules, genesis, start, db, header, k);
      assert Has(bodies, chain[..k]);
      assert SpendsUnspent(bodies, chain[..k], db.blocks[chain[k]].header.hash);
    }
  }

  /** Two chains have at least genesis in common. */
  lemma GenesisInCommon(rules: Rules, genesis: Header, start: Sums, db: Db, a: Header, b: Header)
    requires Sound(rules, genesis, start, db) && HasBlock(db, a) && HasBlock(db, b)
    ensures Common(ChainTo(db.headers, genesis, a), ChainTo(db.headers, genesis, b)) > 0
  {
    StartsAtGenesis(db.headers, genesis, a);
    StartsAtGenesis(db.headers, genesis, b);
  }

  /** The output set can be moved from the chain of any accepted block to that of any other. */
  method SwitchToAccepted(
      utxo: OutputSet, bodies: Bodies, ghost db: Db, ghost rules: Rules, ghost genesis: Header, ghost start: Sums,
      current: seq<Hash>, chain: seq<Hash>, ghost head: Header, ghost header: Header)
    returns (ok: bool)
    requires Sound(rules, genesis, start, db) && HasBlock(db, head) && HasBlock(db, header)
    requires current == ChainTo(db.headers, genesis, head) && chain == ChainTo(db.headers, genesis, header)
    requires ChecksInputs(rules, bodies)
    requires utxo.Valid() && utxo.Rewindable()
    requires Has(bodies, current) && utxo.blocks == BlocksOf(bodies, current)
    requires Writable(utxo.pmmr.backend.dataFile.reader, bodies, chain)
    requires utxo.horizon <= Common(current, chain)
    modifies utxo, utxo.pmmr, utxo.pmmr.backend, utxo.pmmr.backend.hashFile, utxo.pmmr.backend.dataFile
    modifies utxo.pmmr.backend.dataFile.sizeFile, utxo.pmmr.backend.leafSet
    ensures ok && utxo.Valid() && utxo.blocks == BlocksOf(bodies, chain)
  {
    hide *;
    HasAll(utxo.pmmr.backend.dataFile.reader, bodies, chain);
    AcceptedFollows(rules, genesis, start, db, bodies, header);
    GenesisInCommon(rules, genesis, start, db, head, header);
    ok := SwitchBranch(utxo, bodies, current, chain);
  }
}
