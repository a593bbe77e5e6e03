/** The tree of stored headers and the chain from genesis to each of them. */
module ChainTree {
  type Hash = int

  datatype Header = Header(hash: Hash, prevHash: Hash, height: nat, prevRoot: Hash, time: int, bits: int)

  type Headers = map<Hash, Header>

  /** Every stored header but genesis has its parent stored, one lower. */
  ghost predicate Tree(headers: Headers, genesis: Header) {
    && genesis.height == 0 && genesis.hash in headers && headers[genesis.hash] == genesis
    && forall h :: h in headers ==> Hangs(headers, genesis, h)
  }

  ghost predicate Hangs(headers: Headers, genesis: Header, h: Hash)
    requires h in headers
  {
    && headers[h].hash == h
    && (headers[h].height == 0 ==> h == genesis.hash)
    && (headers[h].height > 0 ==>
          headers[h].prevHash in headers && headers[headers[h].prevHash].height + 1 == headers[h].height)
  }

  predicate Stored(headers: Headers, h: Header) {
    h.hash in headers && headers[h.hash] == h
  }

  ghost function Previous(headers: Headers, genesis: Header, h: Header): (p: Header)
    requires Tree(headers, genesis) && Stored(headers, h) && h.height > 0
    ensures Stored(headers, p) && p.height + 1 == h.height
  {
    assert Hangs(headers, genesis, h.hash);
    assert Hangs(headers, genesis, h.prevHash);
    headers[h.prevHash]
  }

  /** The hashes from genesis to `h`; the hash at index `k` is that of the header at height `k`. */
  ghost function ChainTo(headers: Headers, genesis: Header, h: Header): (c: seq<Hash>)
    requires Tree(headers, genesis) && Stored(headers, h)
    ensures |c| == h.height + 1 && c[h.height] == h.hash
    decreases h.height
  {
    if h.height == 0 then [h.hash] else ChainTo(headers, genesis, Previous(headers, genesis, h)) + [h.hash]
  }

  /** The ancestor of `h` at height `k`. */
  lemma {:induction false} Ancestor(headers: Headers, genesis: Header, h: Header, k: nat) returns (a: Header)
    requires Tree(headers, genesis) && Stored(headers, h) && k <= h.height
    ensures Stored(headers, a) && a.height == k && a.hash == ChainTo(headers, genesis, h)[k]
    ensures ChainTo(headers, genesis, a) == ChainTo(headers, genesis, h)[..k + 1]
    decreases h.height
  {
    if k == h.height {
      a := h;
    } else {
      a := Ancestor(headers, genesis, Previous(headers, genesis, h), k);
    }
  }

  lemma {:induction false} StartsAtGenesis(headers: Headers, genesis: Header, h: Header)
    requires Tree(headers, genesis) && Stored(headers, h)
    ensures ChainTo(headers, genesis, h)[0] == genesis.hash
  {
    var a := Ancestor(headers, genesis, h, 0);
    assert Hangs(headers, genesis, a.hash);
  }

  /** Two chains that agree at a height agree up to it. */
  lemma AgreeUpTo(headers: Headers, genesis: Header, g: Header, h: Header, k: nat)
    requires Tree(headers, genesis) && Stored(headers, g) && Stored(headers, h)
    requires k <= g.height && k <= h.height
    requires ChainTo(headers, genesis, g)[k] == ChainTo(headers, genesis, h)[k]
    ensures ChainTo(headers, genesis, g)[..k + 1] == ChainTo(headers, genesis, h)[..k + 1]
  {
    var a := Ancestor(headers, genesis, g, k);
    var b := Ancestor(headers, genesis, h, k);
  }

  /** More headers do not change the chains to those that were there. */
  lemma {:induction false} ChainKept(headers: Headers, more: Headers, genesis: Header, h: Header)
    requires Tree(headers, genesis) && Tree(more, genesis) && Stored(headers, h)
    requires forall x :: x in headers ==> x in more && more[x] == headers[x]
    ensures Stored(more, h) && ChainTo(more, genesis, h) == ChainTo(headers, genesis, h)
    decreases h.height
  {
    if h.height > 0 { ChainKept(headers, more, genesis, Previous(headers, genesis, h)); }
  }

  /** The number of hashes two chains have in common from genesis on. */
  function Common(a: seq<Hash>, b: seq<Hash>): (n: nat)
    ensures n <= |a| && n <= |b| && a[..n] == b[..n]
    ensures n < |a| && n < |b| ==> a[n] != b[n]
  {
    if a == [] || b == [] || a[0] != b[0] then 0
    else
      var n := Common(a[1..], b[1..]);
      assert a[..n + 1] == [a[0]] + a[1..][..n] && b[..n + 1] == [b[0]] + b[1..][..n];
      1 + n
  }

  lemma {:induction false} CommonIs(a: seq<Hash>, b: seq<Hash>, n: nat)
    requires n <= |a| && n <= |b| && a[..n] == b[..n]
    requires n < |a| && n < |b| ==> a[n] != b[n]
    ensures Common(a, b) == n
    decreases n
  {
    if n > 0 {
      assert a[0] == a[..n][0] && b[0] == b[..n][0];
      assert a[1..][..n - 1] == a[..n][1..] && b[1..][..n - 1] == b[..n][1..];
      CommonIs(a[1..], b[1..], n - 1);
    }
  }
}
