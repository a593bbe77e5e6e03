/**
 Moving the header range and the block state from one branch of the header tree to another: walk
 back to the fork point, rewind to it, and apply what lies between it and the new tip.
 */
module ForkSwitch {
  import opened ChainTree
  import opened Collections

  datatype Error = NotFound | InvalidRoot | InvalidBlock | SumsNotFound | BadSums

  datatype Outcome = Ok | Err(error: Error)

  class HeaderExtension {
    /** The headers applied, by height. */
    var mmr: seq<Hash>
    var headHeight: nat
    var headHash: Hash

    constructor (applied: seq<Hash>, height: nat, hash: Hash)
      ensures mmr == applied && headHeight == height && headHash == hash
    {
      mmr, headHeight, headHash := applied, height, hash;
    }

    /** The extension holds the chain to `tip`. */
    ghost predicate At(headers: Headers, genesis: Header, tip: Header)
      requires Tree(headers, genesis) && Stored(headers, tip)
      reads this
    {
      mmr == ChainTo(headers, genesis, tip) && headHeight == tip.height && headHash == tip.hash
    }

    predicate IsOnCurrentChain(header: Header, headers: Headers)
      reads this
    {
      && header.height <= headHeight
      && header.height < |mmr|
      && mmr[header.height] in headers
      && headers[mmr[header.height]].hash == header.hash
    }

    method Rewind(header: Header)
      requires header.height < |mmr|
      modifies this
      ensures mmr == old(mmr)[..header.height + 1] && headHeight == header.height && headHash == header.hash
    {
      mmr := mmr[..header.height + 1];
      headHeight, headHash := header.height, header.hash;
    }

    method ApplyHeader(header: Header)
      modifies this
      ensures mmr == old(mmr) + [header.hash] && headHeight == header.height && headHash == header.hash
    {
      mmr := mmr + [header.hash];
      headHeight, headHash := header.height, header.hash;
    }

    /** The header commits to the root of the headers before it. */
    predicate ValidateRoot(root: seq<Hash> -> Hash, header: Header)
      reads this
    {
      header.height == 0 || root(mmr) == header.prevRoot
    }
  }

  /** The ancestor of `h` at height `k` commits to the chain below it. */
  ghost predicate RootAt(root: seq<Hash> -> Hash, headers: Headers, genesis: Header, h: Header, k: nat)
    requires Tree(headers, genesis) && Stored(headers, h) && k <= h.height
  {
    var chain := ChainTo(headers, genesis, h);
    chain[k] in headers && (k == 0 || headers[chain[k]].prevRoot == root(chain[..k]))
  }

  /** Walking back from `header` to `current` has collected the hashes between them, last first. */
  ghost predicate Walked(headers: Headers, genesis: Header, header: Header, current: Header, hashes: seq<Hash>) {
    && Tree(headers, genesis) && Stored(headers, header) && Stored(headers, current)
    && current.height <= header.height
    && ChainTo(headers, genesis, current) == ChainTo(headers, genesis, header)[..current.height + 1]
    && |hashes| == header.height - current.height
    && forall i :: 0 <= i < |hashes| ==> hashes[i] == ChainTo(headers, genesis, header)[header.height - i]
  }

  lemma WalkBack(headers: Headers, genesis: Header, header: Header, current: Header, hashes: seq<Hash>)
    requires Walked(headers, genesis, header, current, hashes) && current.height > 0
    ensures current.prevHash in headers
    ensures Walked(headers, genesis, header, headers[current.prevHash], hashes + [current.hash])
    ensures headers[current.prevHash].height + 1 == current.height
  {
    var p := Previous(headers, genesis, current);
    var chain := ChainTo(headers, genesis, header);
    assert ChainTo(headers, genesis, current) == ChainTo(headers, genesis, p) + [current.hash];
    assert ChainTo(headers, genesis, p) == chain[..current.height + 1][..p.height + 1];
    assert current.hash == chain[..current.height + 1][current.height];
  }

  lemma WalkedReversed(headers: Headers, genesis: Header, header: Header, current: Header, hashes: seq<Hash>)
    requires Walked(headers, genesis, header, current, hashes)
    ensures Reverse(hashes) == ChainTo(headers, genesis, header)[current.height + 1..]
  {
  }

  /** Where the walk stops is the deepest ancestor the two chains share. */
  lemma ForkPoint(headers: Headers, genesis: Header, tip: Header, header: Header, current: Header)
    requires Tree(headers, genesis) && Stored(headers, tip) && Stored(headers, header) && Stored(headers, current)
    requires current.height <= header.height && current.height <= tip.height
    requires ChainTo(headers, genesis, current) == ChainTo(headers, genesis, header)[..current.height + 1]
    requires ChainTo(headers, genesis, tip)[current.height] == current.hash
    requires current.height < header.height && current.height < tip.height ==>
               ChainTo(headers, genesis, tip)[current.height + 1] !=
               ChainTo(headers, genesis, header)[current.height + 1]
    ensures ChainTo(headers, genesis, tip)[..current.height + 1] == ChainTo(headers, genesis, current)
    ensures Common(ChainTo(headers, genesis, tip), ChainTo(headers, genesis, header)) == current.height + 1
  {
    hide Tree, ChainTo, Common;
    AgreeUpTo(headers, genesis, tip, current, current.height);
    CommonIs(ChainTo(headers, genesis, tip), ChainTo(headers, genesis, header), current.height + 1);
  }

  /** On a chain that includes the tip, being on the current chain is being at that height. */
  lemma OnChain(ext: HeaderExtension, headers: Headers, genesis: Header, tip: Header, current: Header)
    requires Tree(headers, genesis) && Stored(headers, tip) && Stored(headers, current) && ext.At(headers, genesis, tip)
    ensures ext.IsOnCurrentChain(current, headers) <==>
              current.height <= tip.height && ChainTo(headers, genesis, tip)[current.height] == current.hash
  {
    if current.height <= tip.height {
      var a := Ancestor(headers, genesis, tip, current.height);
      assert Hangs(headers, genesis, a.hash);
    }
  }

  /** Walks back from `header` to the fork point and returns the hashes past it, first to last. */
  method CollectFork(
    header: Header, ext: HeaderExtension, headers: Headers, ghost genesis: Header, ghost tip: Header)
    returns (found: bool, forkedHeader: Header, forkHashes: seq<Hash>)
    requires Tree(headers, genesis) && Stored(headers, tip) && Stored(headers, header)
    requires ext.At(headers, genesis, tip)
    ensures found
    ensures Stored(headers, forkedHeader) && forkedHeader.height <= tip.height && forkedHeader.height <= header.height
    ensures forkHashes == ChainTo(headers, genesis, header)[forkedHeader.height + 1..]
    ensures ext.mmr[..forkedHeader.height + 1] == ChainTo(headers, genesis, header)[..forkedHeader.height + 1]
    ensures forkedHeader.hash == ChainTo(headers, genesis, header)[forkedHeader.height]
    ensures Common(ext.mmr, ChainTo(headers, genesis, header)) == forkedHeader.height + 1
  {
    hide Tree, Walked, ChainTo, HeaderExtension.IsOnCurrentChain, Common;
    ghost var chain := ChainTo(headers, genesis, header);
    forkHashes := [];
    forkedHeader := header;
    WalkStart(headers, genesis, header);
    OnChain(ext, headers, genesis, tip, header);
    while forkedHeader.height > 0 && !ext.IsOnCurrentChain(forkedHeader, headers)
      invariant Walked(headers, genesis, header, forkedHeader, forkHashes)
      invariant Stored(headers, forkedHeader) && forkedHeader.height <= header.height
      invariant ext.IsOnCurrentChain(forkedHeader, headers) <==>
                  forkedHeader.height <= tip.height && ext.mmr[forkedHeader.height] == forkedHeader.hash
      invariant forkedHeader.height < header.height && forkedHeader.height < tip.height ==>
                  ext.mmr[forkedHeader.height + 1] != chain[forkedHeader.height + 1]
      decreases forkedHeader.height
    {
      WalkBack(headers, genesis, header, forkedHeader, forkHashes);
      WalkedAt(headers, genesis, header, forkedHeader, forkHashes);
      forkHashes := forkHashes + [forkedHeader.hash];
      if forkedHeader.prevHash !in headers {
        return false, header, [];
      }
      forkedHeader := headers[forkedHeader.prevHash];
      WalkedAt(headers, genesis, header, forkedHeader, forkHashes);
      OnChain(ext, headers, genesis, tip, forkedHeader);
    }
    WalkedAt(headers, genesis, header, forkedHeader, forkHashes);
    WalkedReversed(headers, genesis, header, forkedHeader, forkHashes);
    if forkedHeader.height == 0 { GenesisShared(headers, genesis, tip, forkedHeader); }
    ForkPoint(headers, genesis, tip, header, forkedHeader);
    forkHashes := Reverse(forkHashes);
    found := true;
  }

  /**
   Afterwards the header range is the chain to `header`. Only headers past the fork point are
   applied again, and it fails exactly when one of those does not commit to the chain below it.
   */
  method RewindAndApplyHeaderFork(
    header: Header, ext: HeaderExtension, headers: Headers, root: seq<Hash> -> Hash, ghost genesis: Header,
    ghost tip: Header)
    returns (result: Outcome, ghost applied: nat)
    requires Tree(headers, genesis) && Stored(headers, tip) && Stored(headers, header)
    requires ext.At(headers, genesis, tip)
    modifies ext
    ensures result.Ok? ==> ext.At(headers, genesis, header)
    ensures result.Ok? ==> applied == header.height + 1 - Common(old(ext.mmr), ChainTo(headers, genesis, header))
    ensures result.Ok? <==>
              forall k :: Common(old(ext.mmr), ChainTo(headers, genesis, header)) <= k <= header.height ==>
                RootAt(root, headers, genesis, header, k)
  {
    hide Tree, ChainTo, Common;
    ghost var chain := ChainTo(headers, genesis, header);
    applied := 0;
    var found, forkedHeader, forkHashes := CollectFork(header, ext, headers, genesis, tip);
    if !found {
      return Err(NotFound), applied;
    }
    ext.Rewind(forkedHeader);
    ghost var k := forkedHeader.height + 1;

    for i := 0 to |forkHashes|
      invariant ext.mmr == chain[..k + i] && ext.headHeight == k + i - 1 && ext.headHash == chain[k + i - 1]
      invariant applied == i
      invariant forall j :: k <= j < k + i ==> RootAt(root, headers, genesis, header, j)
    {
      var h := forkHashes[i];
      ghost var a := Ancestor(headers, genesis, header, k + i);
      if h !in headers {
        return Err(NotFound), applied;
      }
      assert RootAt(root, headers, genesis, header, k + i) <==> ext.ValidateRoot(root, headers[h]);
      if !ext.ValidateRoot(root, headers[h]) {
        return Err(InvalidRoot), applied;
      }
      ext.ApplyHeader(headers[h]);
      applied := applied + 1;
    }
    return Ok, applied;
  }

  lemma WalkStart(headers: Headers, genesis: Header, header: Header)
    requires Tree(headers, genesis) && Stored(headers, header)
    ensures Walked(headers, genesis, header, header, [])
  {
  }

  lemma WalkedAt(headers: Headers, genesis: Header, header: Header, current: Header, hashes: seq<Hash>)
    requires Walked(headers, genesis, header, current, hashes)
    ensures Tree(headers, genesis) && Stored(headers, header) && Stored(headers, current)
    ensures current.height <= header.height
    ensures |ChainTo(headers, genesis, header)| == header.height + 1
    ensures ChainTo(headers, genesis, current) == ChainTo(headers, genesis, header)[..current.height + 1]
    ensures ChainTo(headers, genesis, header)[current.height] == current.hash
    ensures |hashes| == header.height - current.height
  {
    var chain := ChainTo(headers, genesis, header);
    assert chain[..current.height + 1][current.height] == chain[current.height];
  }

  lemma GenesisShared(headers: Headers, genesis: Header, tip: Header, current: Header)
    requires Tree(headers, genesis) && Stored(headers, tip) && Stored(headers, current) && current.height == 0
    ensures ChainTo(headers, genesis, tip)[0] == current.hash
  {
    StartsAtGenesis(headers, genesis, tip);
    assert Hangs(headers, genesis, current.hash);
  }
}
