/** Headers received in bulk: a range of their own, moved a chunk of headers at a time. */
module HeaderSync {
  import opened ChainTree
  import opened Difficulty
  import opened ForkSwitch
  import opened BlockRules
  import opened BlockPipe
  import opened ChainState

  /** The headers with those of a chunk. */
  ghost function Added(headers: Headers, chunk: seq<Header>): Headers {
    if chunk == [] then headers
    else Added(headers, chunk[..|chunk| - 1])[chunk[|chunk| - 1].hash := chunk[|chunk| - 1]]
  }

  /** A hash stands for one header, among those of the chunk and those stored. */
  ghost predicate NoClash(headers: Headers, chunk: seq<Header>) {
    && (forall i :: 0 <= i < |chunk| && chunk[i].hash in headers ==> headers[chunk[i].hash] == chunk[i])
    && (forall i, j :: 0 <= i < j < |chunk| && chunk[i].hash == chunk[j].hash ==> chunk[i] == chunk[j])
  }

  /** Each header of the chunk is the child of the one before it. */
  ghost predicate Consecutive(chunk: seq<Header>) {
    forall i :: 0 < i < |chunk| ==> chunk[i].prevHash == chunk[i - 1].hash
  }

  /** What a header is checked for on its own: its parent, and the bits a range asks for. */
  predicate HeaderValid(rules: Rules, headers: Headers, range: seq<Hash>, h: Header) {
    && h.prevHash in headers
    && var prev := headers[h.prevHash];
    && h.height == prev.height + 1 && rules.headerOk(h, prev)
    && (h.height >= rules.refactorHeight ==> BitsOk(rules.nextBits, headers, range, h, prev))
  }

  /** The same said without the steps of the check: what stands in a header that passes. */
  ghost predicate Passes(rules: Rules, headers: Headers, range: seq<Hash>, h: Header) {
    && h.prevHash in headers
    && var prev := headers[h.prevHash];
    && h.height == prev.height + 1 && rules.headerOk(h, prev)
    && (h.height < rules.refactorHeight || Demanded(rules.nextBits, headers, range, prev, h.bits))
  }

  lemma ValidMeans(rules: Rules, headers: Headers, range: seq<Hash>, h: Header)
    ensures HeaderValid(rules, headers, range, h) <==> Passes(rules, headers, range, h)
  {
    hide BitsOk, Demanded;
    if h.prevHash in headers { BitsMean(rules.nextBits, headers, range, h, headers[h.prevHash]); }
  }

  /** A window's bits, once asked for, stand against the store as it grows. */
  lemma PassesLater(rules: Rules, headers: Headers, more: Headers, range: seq<Hash>, h: Header)
    requires Passes(rules, headers, range, h)
    requires forall x :: x in headers ==> x in more && more[x] == headers[x]
    ensures Passes(rules, more, range, h)
  {
    var prev := headers[h.prevHash];
    assert more[h.prevHash] == prev;
    if (prev.height + 1) % 2016 == 0 && prev.height - 2015 < |range| {
      var first: Hash := range[prev.height - 2015];
      if first in headers { assert more[first] == headers[first]; }
    }
  }

  /** What is left of that once the range has moved on. */
  ghost predicate Links(rules: Rules, headers: Headers, h: Header) {
    && Stored(headers, h) && h.prevHash in headers
    && var prev := headers[h.prevHash];
    && h.height == prev.height + 1 && rules.headerOk(h, prev)
    && (h.height >= rules.refactorHeight && !StartsWindow(prev) ==> h.bits == prev.bits)
  }

  /** The chunk so far has been stored, header by header. */
  ghost predicate Taken(rules: Rules, genesis: Header, headers: Headers, chunk: seq<Header>, batch: Headers) {
    && Tree(headers, genesis) && Tree(batch, genesis)
    && (forall x :: x in headers ==> x in batch && batch[x] == headers[x])
    && (forall i :: 0 <= i < |chunk| ==> Links(rules, batch, chunk[i]))
    && (forall x :: x in batch && x !in headers ==> batch[x] in chunk)
  }

  /** Nothing but the header itself is stored under its hash. */
  lemma OneHeader(rules: Rules, genesis: Header, headers: Headers, chunk: seq<Header>, i: nat, batch: Headers)
    requires i < |chunk| && Taken(rules, genesis, headers, chunk[..i], batch) && NoClash(headers, chunk)
    ensures chunk[i].hash in batch ==> batch[chunk[i].hash] == chunk[i]
  {
    var x, seen := chunk[i].hash, chunk[..i];
    if x in batch && x !in headers {
      assert Hangs(batch, genesis, x);
      var j :| 0 <= j < |seen| && seen[j] == batch[x];
      assert chunk[j].hash == x;
    }
  }

  lemma TreeGrows(headers: Headers, genesis: Header, h: Header)
    requires Tree(headers, genesis) && (h.hash in headers ==> headers[h.hash] == h)
    requires h.prevHash in headers && h.height == headers[h.prevHash].height + 1
    ensures Tree(headers[h.hash := h], genesis)
  {
    var more := headers[h.hash := h];
    forall x | x in more ensures Hangs(more, genesis, x) {
      if x in headers { assert Hangs(headers, genesis, x); }
    }
  }

  lemma TakeNext(
      rules: Rules, genesis: Header, headers: Headers, range: seq<Hash>, chunk: seq<Header>, i: nat, batch: Headers)
    requires i < |chunk| && Taken(rules, genesis, headers, chunk[..i], batch)
    requires HeaderValid(rules, batch, range, chunk[i]) && NoClash(headers, chunk)
    ensures Taken(rules, genesis, headers, chunk[..i + 1], batch[chunk[i].hash := chunk[i]])
  {
    hide Tree, NoClash;
    var h, seen := chunk[i], chunk[..i];
    var more := batch[h.hash := h];
    OneHeader(rules, genesis, headers, chunk, i, batch);
    TreeGrows(batch, genesis, h);
    assert chunk[..i + 1] == seen + [h];
    assert Links(rules, more, h);
    forall j | 0 <= j < i ensures Links(rules, more, seen[j]) {
      assert Links(rules, batch, seen[j]);
    }
  }

  /** The headers of a chunk that is one chain all lie on the chain to its last. */
  lemma {:induction false} OnChainToLast(rules: Rules, genesis: Header, headers: Headers, chunk: seq<Header>,
      batch: Headers, i: nat)
    requires i < |chunk| && Consecutive(chunk) && Taken(rules, genesis, headers, chunk, batch)
    ensures Links(rules, batch, chunk[i]) && Links(rules, batch, chunk[|chunk| - 1])
    ensures chunk[i].height <= chunk[|chunk| - 1].height
    ensures ChainTo(batch, genesis, chunk[i]) == ChainTo(batch, genesis, chunk[|chunk| - 1])[..chunk[i].height + 1]
    decreases |chunk| - i
  {
    hide Tree, ChainTo;
    assert Links(rules, batch, chunk[i]) && Links(rules, batch, chunk[|chunk| - 1]);
    if i + 1 < |chunk| {
      OnChainToLast(rules, genesis, headers, chunk, batch, i + 1);
      ParentOnChain(batch, genesis, chunk[i], chunk[i + 1], chunk[|chunk| - 1]);
    }
  }

  lemma ParentOnChain(headers: Headers, genesis: Header, prev: Header, h: Header, last: Header)
    requires Tree(headers, genesis) && Stored(headers, prev) && Stored(headers, h) && Stored(headers, last)
    requires h.prevHash == prev.hash && h.height == prev.height + 1 && h.height <= last.height
    requires ChainTo(headers, genesis, h) == ChainTo(headers, genesis, last)[..h.height + 1]
    ensures ChainTo(headers, genesis, prev) == ChainTo(headers, genesis, last)[..prev.height + 1]
  {
    var chain := ChainTo(headers, genesis, last);
    assert ChainTo(headers, genesis, h) == ChainTo(headers, genesis, prev) + [h.hash];
    assert chain[..prev.height + 1] == chain[..h.height + 1][..prev.height + 1];
  }

  /** A header of the chunk commits to the chain below it. */
  ghost predicate Commits(rules: Rules, genesis: Header, batch: Headers, h: Header)
    requires Tree(batch, genesis) && Stored(batch, h) && h.height > 0
  {
    h.prevRoot == rules.root(ChainTo(batch, genesis, Previous(batch, genesis, h)))
  }

  ghost predicate AllCommit(rules: Rules, genesis: Header, headers: Headers, chunk: seq<Header>, batch: Headers)
    requires Taken(rules, genesis, headers, chunk, batch)
  {
    forall i :: 0 <= i < |chunk| ==> Links(rules, batch, chunk[i]) && Commits(rules, genesis, batch, chunk[i])
  }

  /** With the chunk stored, the headers are sound exactly if all of it commits to the chain below. */
  lemma ChunkIsSound(rules: Rules, genesis: Header, headers: Headers, chunk: seq<Header>, batch: Headers)
    requires Taken(rules, genesis, headers, chunk, batch) && HeadersSound(rules, headers, genesis)
    ensures HeadersSound(rules, batch, genesis) <==> AllCommit(rules, genesis, headers, chunk, batch)
  {
    hide ChainTo, Tree;
    if AllCommit(rules, genesis, headers, chunk, batch) {
      forall x | x in batch && batch[x].height > 0 ensures HeaderSound(rules, batch, genesis, x) {
        if x in headers {
          StillSound(rules, genesis, headers, batch, x);
        } else {
          var i :| 0 <= i < |chunk| && chunk[i] == batch[x];
          assert Links(rules, batch, chunk[i]);
          NewIsSound(rules, genesis, batch, x);
        }
      }
    }
    if HeadersSound(rules, batch, genesis) {
      forall i | 0 <= i < |chunk| ensures Links(rules, batch, chunk[i]) && Commits(rules, genesis, batch, chunk[i]) {
        assert Links(rules, batch, chunk[i]);
        assert HeaderSound(rules, batch, genesis, chunk[i].hash);
      }
    }
  }

  lemma NewIsSound(rules: Rules, genesis: Header, batch: Headers, x: Hash)
    requires Tree(batch, genesis) && x in batch && Links(rules, batch, batch[x])
    requires Commits(rules, genesis, batch, batch[x])
    ensures HeaderSound(rules, batch, genesis, x)
  {
    hide ChainTo;
    assert Hangs(batch, genesis, x);
  }

  lemma StillSound(rules: Rules, genesis: Header, headers: Headers, batch: Headers, x: Hash)
    requires Tree(headers, genesis) && Tree(batch, genesis) && HeadersSound(rules, headers, genesis)
    requires forall y :: y in headers ==> y in batch && batch[y] == headers[y]
    requires x in headers && headers[x].height > 0
    ensures HeaderSound(rules, batch, genesis, x)
  {
    hide ChainTo;
    assert Hangs(headers, genesis, x);
    assert HeaderSound(rules, headers, genesis, x);
    ChainKept(headers, batch, genesis, Previous(headers, genesis, headers[x]));
  }

  /** In a chunk that is one chain, checking the roots from the fork point on checks all of them. */
  lemma RootsChecked(rules: Rules, genesis: Header, headers: Headers, chunk: seq<Header>, batch: Headers, tip: Header)
    requires Taken(rules, genesis, headers, chunk, batch) && HeadersSound(rules, headers, genesis)
    requires chunk != [] && Consecutive(chunk) && Stored(headers, tip) && Stored(batch, chunk[|chunk| - 1])
    requires var last := chunk[|chunk| - 1];
             forall k :: Common(ChainTo(headers, genesis, tip), ChainTo(batch, genesis, last)) <= k <= last.height ==>
               RootAt(rules.root, batch, genesis, last, k)
    ensures AllCommit(rules, genesis, headers, chunk, batch)
  {
    hide Common, ChainTo, Tree, RootAt;
    var last := chunk[|chunk| - 1];
    var n := Common(ChainTo(headers, genesis, tip), ChainTo(batch, genesis, last));
    forall i | 0 <= i < |chunk| ensures Links(rules, batch, chunk[i]) && Commits(rules, genesis, batch, chunk[i]) {
      OnChainToLast(rules, genesis, headers, chunk, batch, i);
      var h := chunk[i];
      if h.height < n {
        StoredBelowFork(genesis, headers, batch, tip, last, h);
        StillSound(rules, genesis, headers, batch, h.hash);
      } else {
        CommitsAt(rules, genesis, batch, last, h);
      }
    }
  }

  lemma StoredBelowFork(genesis: Header, headers: Headers, batch: Headers, tip: Header, last: Header, h: Header)
    requires Tree(headers, genesis) && Tree(batch, genesis) && Stored(headers, tip) && Stored(batch, last)
             && Stored(batch, h)
    requires h.height < Common(ChainTo(headers, genesis, tip), ChainTo(batch, genesis, last))
    requires h.height <= last.height && ChainTo(batch, genesis, h) == ChainTo(batch, genesis, last)[..h.height + 1]
    ensures h.hash in headers
  {
    hide Common, ChainTo, Tree;
    var a, b := ChainTo(headers, genesis, tip), ChainTo(batch, genesis, last);
    SameBelow(a, b, Common(a, b), h.height);
    SameBelow(b, ChainTo(batch, genesis, h), h.height + 1, h.height);
    var x := Ancestor(headers, genesis, tip, h.height);
  }

  lemma SameBelow(a: seq<Hash>, b: seq<Hash>, n: nat, k: nat)
    requires k < n <= |a| && n <= |b| && a[..n] == b[..n]
    ensures a[k] == b[k]
  {
    assert a[..n][k] == b[..n][k];
  }

  lemma CommitsAt(rules: Rules, genesis: Header, batch: Headers, last: Header, h: Header)
    requires Tree(batch, genesis) && Stored(batch, last) && Stored(batch, h) && 0 < h.height <= last.height
    requires ChainTo(batch, genesis, h) == ChainTo(batch, genesis, last)[..h.height + 1]
    requires RootAt(rules.root, batch, genesis, last, h.height)
    ensures Commits(rules, genesis, batch, h)
  {
    var chain, k := ChainTo(batch, genesis, last), h.height;
    var prev := Previous(batch, genesis, h);
    assert chain[..k + 1][k] == chain[k] == h.hash;
    assert ChainTo(batch, genesis, h)[..k] == ChainTo(batch, genesis, prev);
    assert chain[..k] == chain[..k + 1][..k];
  }

  /** The range headers in bulk are checked in. */
  class SyncRange {
    var mmr: seq<Hash>
    ghost var tip: Header

    /** The range is the chain to a stored header. */
    ghost predicate At(headers: Headers, genesis: Header)
      reads this
    {
      Tree(headers, genesis) && Stored(headers, tip) && mmr == ChainTo(headers, genesis, tip)
    }

    constructor (genesis: Header)
      requires genesis.height == 0
      ensures mmr == [genesis.hash] && tip == genesis
      ensures forall headers :: Tree(headers, genesis) ==> At(headers, genesis)
    {
      mmr, tip := [genesis.hash], genesis;
    }

    /** Nothing stored afterwards moves the range. */
    lemma Kept(headers: Headers, more: Headers, genesis: Header)
      requires At(headers, genesis) && Tree(more, genesis)
      requires forall x :: x in headers ==> x in more && more[x] == headers[x]
      ensures At(more, genesis)
    {
      ChainKept(headers, more, genesis, tip);
    }

    /** The last header is stored and no higher than the range. */
    ghost predicate Seen(headers: Headers, chunk: seq<Header>)
      reads this
    {
      chunk != [] && Stored(headers, chunk[|chunk| - 1]) && chunk[|chunk| - 1].height <= tip.height
    }

    /** Each header is valid after those before it, by the bits the range asks for. */
    ghost predicate ChunkValid(rules: Rules, headers: Headers, chunk: seq<Header>)
      reads this
    {
      forall i :: 0 <= i < |chunk| ==> Passes(rules, Added(headers, chunk[..i]), mmr, chunk[i])
    }

    /** Checks and stores each header of the chunk. */
    method TakeAll(rules: Rules, ghost genesis: Header, headers: Headers, chunk: seq<Header>)
      returns (ok: bool, batch: Headers)
      requires Tree(headers, genesis) && NoClash(headers, chunk)
      ensures ok <==> ChunkValid(rules, headers, chunk)
      ensures ok ==> batch == Added(headers, chunk) && Taken(rules, genesis, headers, chunk, batch)
      ensures ok ==> forall i :: 0 <= i < |chunk| ==> Passes(rules, batch, mmr, chunk[i])
    {
      hide Tree, Taken, HeaderValid, Passes;
      batch := headers;
      TakeNone(rules, genesis, headers);
      for i := 0 to |chunk|
        invariant Taken(rules, genesis, headers, chunk[..i], batch) && batch == Added(headers, chunk[..i])
        invariant forall j :: 0 <= j < i ==> Passes(rules, Added(headers, chunk[..j]), mmr, chunk[j])
        invariant forall j :: 0 <= j < i ==> Passes(rules, batch, mmr, chunk[j])
      {
        ValidMeans(rules, batch, mmr, chunk[i]);
        if !HeaderValid(rules, batch, mmr, chunk[i]) {
          return false, batch;
        }
        TakeNext(rules, genesis, headers, mmr, chunk, i, batch);
        assert chunk[..i + 1][..i] == chunk[..i];
        OneHeader(rules, genesis, headers, chunk, i, batch);
        ghost var more := batch[chunk[i].hash := chunk[i]];
        forall j | 0 <= j <= i ensures Passes(rules, more, mmr, chunk[j]) {
          PassesLater(rules, batch, more, mmr, chunk[j]);
        }
        batch := batch[chunk[i].hash := chunk[i]];
      }
      assert chunk[..|chunk|] == chunk;
      ok := true;
    }

    /** Every header from where the range forks off to `last` commits to the chain below it. */
    ghost predicate RootsOk(rules: Rules, genesis: Header, batch: Headers, last: Header)
      reads this
    {
      && Tree(batch, genesis) && Stored(batch, last)
      && forall k :: Common(mmr, ChainTo(batch, genesis, last)) <= k <= last.height ==>
           RootAt(rules.root, batch, genesis, last, k)
    }

    /** Applies a stored chunk to the range, from the fork point to its last header. */
    method MoveTo(rules: Rules, ghost genesis: Header, ghost headers: Headers, batch: Headers, last: Header)
      returns (ok: bool)
      requires At(headers, genesis) && Tree(batch, genesis) && Stored(batch, last)
      requires forall x :: x in headers ==> x in batch && batch[x] == headers[x]
      modifies this
      ensures ok <==> old(RootsOk(rules, genesis, batch, last))
      ensures At(batch, genesis) && tip == (if ok then last else old(tip)) && (!ok ==> mmr == old(mmr))
    {
      hide Tree, ChainTo, Common, RootAt;
      Kept(headers, batch, genesis);
      ghost var chain := ChainTo(batch, genesis, tip);
      var headHash := mmr[|mmr| - 1];
      if headHash !in batch {
        return false;
      }
      var ext := new HeaderExtension(mmr, batch[headHash].height, headHash);
      var result, _ := RewindAndApplyHeaderFork(last, ext, batch, rules.root, genesis, tip);
      ok := result.Ok?;
      if ok {
        mmr, tip := ext.mmr, last;
      }
    }

    /** The chunk is taken: its headers are valid and the roots of those on the way to its last are right. */
    ghost predicate Taking(chain: Chain, chunk: seq<Header>)
      reads this, chain
    {
      && chunk != [] && ChunkValid(chain.rules, chain.db.headers, chunk)
      && RootsOk(chain.rules, chain.genesis, Added(chain.db.headers, chunk), chunk[|chunk| - 1])
    }

    /**
     Takes a chunk of headers, all or none. It asks nothing of the header range of the chain; that range,
     if it has been moved to a header that is not stored, is whole again exactly when this header is.
     Headers off the chain to the last one have no root checked, so the store stays sound exactly if all
     of them commit to the chain below. They do in a chunk that is one chain.
     */
    method SyncChunk(chain: Chain, chunk: seq<Header>) returns (ok: bool)
      requires chain.Running() && At(chain.db.headers, chain.genesis) && NoClash(chain.db.headers, chunk)
      requires forall i :: 0 <= i < |chunk| && chunk[i].hash == chain.headerTip.hash ==> chunk[i] == chain.headerTip
      modifies this, chain`db
      ensures ok <==> chunk == [] || old(Seen(chain.db.headers, chunk)) || old(Taking(chain, chunk))
      ensures chunk != [] && !old(Seen(chain.db.headers, chunk)) && ok ==>
                && chain.db == old(chain.db).(headers := old(Added(chain.db.headers, chunk)))
                && tip == chunk[|chunk| - 1]
                && (forall i :: 0 <= i < |chunk| ==> Passes(chain.rules, chain.db.headers, old(mmr), chunk[i]))
                && Taken(chain.rules, chain.genesis, old(chain.db.headers), chunk, chain.db.headers)
                && (chain.Running() <==>
                      AllCommit(chain.rules, chain.genesis, old(chain.db.headers), chunk, chain.db.headers))
      ensures chunk == [] || old(Seen(chain.db.headers, chunk)) || !ok ==>
                chain.db == old(chain.db) && mmr == old(mmr) && tip == old(tip)
      ensures At(chain.db.headers, chain.genesis)
      ensures Consecutive(chunk) ==> chain.Running()
      ensures chain.RangeValid() <==> chain.headerTip.hash in chain.db.headers
    {
      hide Sound, Tree, HeadersSound, ChainTo, Common, RootAt, Chain.StoreValid, Chain.Running, ChunkValid;
      hide Taken, AllCommit, Consecutive, Added, Passes;
      ghost var headers, genesis, before := chain.db.headers, chain.genesis, tip;
      Unfolded(chain);
      RangeWhole(headers, headers, genesis, chain.headerMmr, chain.headerTip);
      if chunk == [] {
        return true;
      }
      var last := chunk[|chunk| - 1];
      var headHash := mmr[|mmr| - 1];
      if headHash !in chain.db.headers {
        return false;
      }
      if last.hash in chain.db.headers && chain.db.headers[last.hash].height <= chain.db.headers[headHash].height {
        return true;
      }
      var batch;
      ok, batch := TakeAll(chain.rules, genesis, chain.db.headers, chunk);
      if !ok {
        return;
      }
      TakenHeaders(chain.rules, genesis, headers, chunk, batch, chain.headerTip);
      ok := MoveTo(chain.rules, genesis, chain.db.headers, batch, last);
      if !ok {
        return;
      }
      ChunkIsSound(chain.rules, genesis, headers, chunk, batch);
      if Consecutive(chunk) { RootsChecked(chain.rules, genesis, headers, chunk, batch, before); }
      StoreHeaders(chain, batch);
    }

    /**
     Takes a chunk of headers that is one chain and then offers its last to the header range of the
     chain. This never moves that range to a header that is not stored, and is the way out for a range
     that has been: it is whole afterwards exactly if its last header has come to be stored.
     */
    method SyncBlockHeaders(chain: Chain, chunk: seq<Header>) returns (ok: bool)
      requires chain.Running() && At(chain.db.headers, chain.genesis)
      requires NoClash(chain.db.headers, chunk) && Consecutive(chunk)
      requires forall i :: 0 <= i < |chunk| && chunk[i].hash == chain.headerTip.hash ==> chunk[i] == chain.headerTip
      modifies this, chain`db, chain`headerMmr, chain`headerTip
      ensures chain.Running() && At(chain.db.headers, chain.genesis)
      ensures chain.db.headers == old(chain.db.headers) || chain.db.headers == old(Added(chain.db.headers, chunk))
      ensures ok && chunk != [] ==>
                && Stored(chain.db.headers, chunk[|chunk| - 1])
                && (old(Seen(chain.db.headers, chunk)) || chain.db.headers == old(Added(chain.db.headers, chunk)))
      ensures ok <==>
                || chunk == []
                || (&& (old(Seen(chain.db.headers, chunk)) || old(Taking(chain, chunk)))
                    && var last := chunk[|chunk| - 1];
                       && last.prevHash in chain.db.headers
                       && (|| old(chain.Known(last.hash))
                           || (&& old(chain.headerTip.hash) in chain.db.headers
                               && (|| last.height < chain.rules.refactorHeight
                                   || last.height <= old(chain.headerTip.height)
                                   || OwnBits(chain.rules, chain.genesis, chain.db.headers, last)))))
      ensures chain.Stuck() <==> old(chain.Stuck()) && old(chain.headerTip.hash) !in chain.db.headers
      ensures var last := if chunk == [] then chain.genesis else chunk[|chunk| - 1];
              var moves :=
                && chunk != [] && (old(Seen(chain.db.headers, chunk)) || old(Taking(chain, chunk)))
                && last.prevHash in chain.db.headers && !old(chain.Known(last.hash))
                && old(chain.headerTip.hash) in chain.db.headers && last.height > old(chain.headerTip.height);
              chain.headerTip == if moves then last else old(chain.headerTip)
    {
      hide Chain.Running, At, NoClash, Consecutive, Taken, Taking, AllCommit, Added, Chain.RangeValid, Chain.Stuck;
      hide Chain.HeaderPasses, Chain.Valid, OwnBits, Chain.MovesAlone;
      ghost var headers, genesis, range := chain.db.headers, chain.genesis, chain.headerTip;
      StuckOrWhole(chain);
      ghost var seen := Seen(headers, chunk);
      ok := SyncChunk(chain, chunk);
      StuckOrWhole(chain);
      if ok && chunk != [] {
        if !seen { TakenHeaders(chain.rules, genesis, headers, chunk, chain.db.headers, range); }
        var last := chunk[|chunk| - 1];
        assert chain.db.headers[last.hash := last] == chain.db.headers;
        StoredPasses(chain, last);
        ok := chain.ProcessBlockHeader(last);
        StuckOrWhole(chain);
      }
    }
  }

  /** With the headers of a batch stored, the header range is whole exactly if its last header is among them. */
  method StoreHeaders(chain: Chain, batch: Headers)
    requires chain.Running() && Tree(batch, chain.genesis)
    requires forall x :: x in chain.db.headers ==> x in batch && batch[x] == chain.db.headers[x]
    requires var tip := chain.headerTip;
             tip.hash in batch && tip.hash !in chain.db.headers ==> batch[tip.hash] == tip && tip.height > 0
    modifies chain`db
    ensures chain.db == old(chain.db).(headers := batch)
    ensures chain.Running() <==> HeadersSound(chain.rules, batch, chain.genesis)
    ensures chain.RangeValid() <==> chain.headerTip.hash in batch
  {
    hide Tree, BlockTree, HeadersSound, BlocksSound, SumsSound, ChainTo, Logged, FirstOfGreatestHeight, SumsAlong;
    Unfolded(chain);
    RangeWhole(chain.db.headers, batch, chain.genesis, chain.headerMmr, chain.headerTip);
    if HeadersSound(chain.rules, batch, chain.genesis) { chain.KeepBlocks(batch); }
    chain.db := chain.db.(headers := batch);
  }

  lemma Unfolded(chain: Chain)
    requires chain.Running()
    ensures Tree(chain.db.headers, chain.genesis) && HeadersSound(chain.rules, chain.db.headers, chain.genesis)
    ensures OnOrAhead(chain.db.headers, chain.genesis, chain.headerMmr, chain.headerTip)
  {
    hide HeadersSound, ChainTo, BlockTree, BlocksSound, SumsSound, SumsAlong, Logged, FirstOfGreatestHeight;
    if !chain.RangeValid() { assert chain.headerTip.hash !in chain.db.headers; }
  }

  /** A stored header has the bits its own branch asks for. */
  ghost predicate OwnBits(rules: Rules, genesis: Header, headers: Headers, h: Header) {
    && Tree(headers, genesis) && Stored(headers, h) && h.height > 0
    && var prev := Previous(headers, genesis, h);
       BitsOk(rules.nextBits, headers, ChainTo(headers, genesis, prev), h, prev)
  }

  /** What is left to ask of a stored header: its bits, if it is higher than the range. */
  lemma StoredPasses(chain: Chain, h: Header)
    requires chain.Running() && Stored(chain.db.headers, h)
    ensures h.prevHash in chain.db.headers ==> Stored(chain.db.headers, chain.db.headers[h.prevHash])
    ensures chain.RangeValid() && h.prevHash in chain.db.headers && !chain.Known(h.hash) ==>
              (chain.HeaderPasses(h, chain.db.headers[h.prevHash]) <==>
               || h.height < chain.rules.refactorHeight || h.height <= chain.headerTip.height
               || OwnBits(chain.rules, chain.genesis, chain.db.headers, h))
    ensures chain.MovesAlone(h) <==>
              && chain.RangeValid() && h.prevHash in chain.db.headers && !chain.Known(h.hash)
              && h.height > chain.headerTip.height
  {
    hide BlockTree, BlocksSound, SumsSound, SumsAlong, Logged, FirstOfGreatestHeight, ChainTo, ExpectedBits;
    var headers, genesis := chain.db.headers, chain.genesis;
    assert Hangs(headers, genesis, h.hash);
    if h.prevHash in headers {
      assert Hangs(headers, genesis, h.prevHash);
      if chain.RangeValid() && !chain.Known(h.hash) {
        NotGenesis(chain.rules, genesis, chain.start, chain.db, h);
        assert HeaderSound(chain.rules, headers, genesis, h.hash);
        var prev := headers[h.prevHash];
        var own := ChainTo(headers, genesis, prev);
        SameStart(chain.rules.nextBits, headers, own + [h.hash], own, prev);
      }
    }
  }

  lemma StuckOrWhole(chain: Chain)
    requires chain.Running()
    ensures chain.Stuck() <==> chain.headerTip.hash !in chain.db.headers
    ensures chain.Stuck() <==> !chain.RangeValid()
  {
    hide HeadersSound, ChainTo, BlockTree, BlocksSound, SumsSound, SumsAlong, Logged, FirstOfGreatestHeight;
  }

  /** The range is the chain to `tip`, or to its parent and then `tip`, which is not stored. */
  ghost predicate OnOrAhead(headers: Headers, genesis: Header, range: seq<Hash>, tip: Header) {
    && Tree(headers, genesis)
    && if tip.hash in headers then Stored(headers, tip) && range == ChainTo(headers, genesis, tip)
       else
         && tip.prevHash in headers && Stored(headers, headers[tip.prevHash])
         && range == ChainTo(headers, genesis, headers[tip.prevHash]) + [tip.hash]
  }

  /** With more headers stored, the range is where it was. */
  lemma RangeWhole(headers: Headers, more: Headers, genesis: Header, range: seq<Hash>, tip: Header)
    requires OnOrAhead(headers, genesis, range, tip) && Tree(more, genesis)
    requires forall x :: x in headers ==> x in more && more[x] == headers[x]
    requires tip.hash in more && tip.hash !in headers ==> more[tip.hash] == tip && tip.height > 0
    ensures OnOrAhead(more, genesis, range, tip)
  {
    if tip.hash in headers {
      ChainKept(headers, more, genesis, tip);
    } else {
      ChainKept(headers, more, genesis, headers[tip.prevHash]);
      if tip.hash in more { assert Previous(more, genesis, tip) == headers[tip.prevHash]; }
    }
  }

  lemma TakenHeaders(rules: Rules, genesis: Header, headers: Headers, chunk: seq<Header>, batch: Headers, tip: Header)
    requires Taken(rules, genesis, headers, chunk, batch)
    requires forall i :: 0 <= i < |chunk| && chunk[i].hash == tip.hash ==> chunk[i] == tip
    ensures Tree(batch, genesis) && forall x :: x in headers ==> x in batch && batch[x] == headers[x]
    ensures forall i :: 0 <= i < |chunk| ==> Stored(batch, chunk[i])
    ensures tip.hash in batch && tip.hash !in headers ==> batch[tip.hash] == tip && tip.height > 0
  {
    assert forall i :: 0 <= i < |chunk| ==> Links(rules, batch, chunk[i]);
    if tip.hash in batch && tip.hash !in headers {
      assert Hangs(batch, genesis, tip.hash);
      var i :| 0 <= i < |chunk| && chunk[i] == batch[tip.hash];
      assert Links(rules, batch, chunk[i]);
    }
  }

  lemma TakeNone(rules: Rules, genesis: Header, headers: Headers)
    requires Tree(headers, genesis)
    ensures Taken(rules, genesis, headers, [], headers)
  {
  }
}
