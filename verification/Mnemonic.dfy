/** Entropy as a list of word indexes of 11 bits, the last of which ends in a checksum. */
module Mnemonic {
  import opened Results
  import opened Binary
  import opened BitPacking
  import opened Chunks

  datatype Error = BadWord(word: string) | BadChecksum(expected: nat, actual: nat) | InvalidLength(length: nat)

  const BYTE_LENGTHS: set<nat> := {16, 20, 24, 28, 32}
  const WORD_COUNTS: set<nat> := {12, 15, 18, 21, 24}

  /** The first bits of the hash, one for every four bytes; `hash` gives the first byte of the digest. */
  function Checksum(hash: seq<nat> -> byte, entropy: seq<nat>): nat
    requires |entropy| <= 32
  {
    var c := |entropy| / 4;
    Mask(ShiftRight(hash(entropy), 8 - c), c)
  }

  /** The bits of the entropy followed by those of the checksum, counted from the end. */
  ghost function Stream(entropy: seq<nat>, checksum: nat, c: nat): seq<bool> {
    seq(|entropy| * 8 + c, t requires 0 <= t < |entropy| * 8 + c =>
      if t < c then Bit(checksum, t) else End(entropy, 8, t - c))
  }

  /** The indexes spell the entropy and then the checksum. */
  ghost predicate Packs(indexes: seq<nat>, entropy: seq<nat>, checksum: nat) {
    var c := |entropy| / 4;
    && |entropy| in BYTE_LENGTHS && |indexes| == 3 * c
    && WordsBelow(entropy, 8) && checksum < Pow2(c)
    && Holds(indexes, 11, Stream(entropy, checksum, c), 0, |indexes| * 11)
  }

  ghost predicate Spells(hash: seq<nat> -> byte, entropy: seq<nat>, indexes: seq<nat>) {
    |entropy| <= 32 && Packs(indexes, entropy, Checksum(hash, entropy))
  }

  lemma PackedBit(indexes: seq<nat>, entropy: seq<nat>, checksum: nat, t: nat)
    requires Packs(indexes, entropy, checksum) && t < |indexes| * 11
    ensures var c := |entropy| / 4;
            End(indexes, 11, t) <==> if t < c then Bit(checksum, t) else End(entropy, 8, t - c)
  {
    hide End, Bit, Pow2;
    assert Stream(entropy, checksum, |entropy| / 4)[t] <==> End(indexes, 11, t);
  }

  /** The last word ends in the top bits of the digest byte, one for every four bytes of entropy. */
  ghost predicate EndsInDigest(digest: byte, size: nat, indexes: seq<nat>) {
    var c := size / 4;
    && 4 <= c <= 8 && indexes != []
    && forall t :: 0 <= t < c ==> TopBit(digest, c, indexes, t)
  }

  /** Bit `t` of the last word is that bit of the top `c` of the digest. */
  predicate TopBit(digest: byte, c: nat, indexes: seq<nat>, t: nat)
    requires c <= 8 && indexes != []
  {
    Bit(indexes[|indexes| - 1], t) <==> Bit(digest, 8 - c + t)
  }

  lemma SpelledDigest(hash: seq<nat> -> byte, entropy: seq<nat>, indexes: seq<nat>)
    requires Spells(hash, entropy, indexes)
    ensures EndsInDigest(hash(entropy), |entropy|, indexes)
  {
    hide Bit, Pow2, Mask, ShiftRight, Holds, Stream;
    var c := |entropy| / 4;
    forall t | 0 <= t < c ensures TopBit(hash(entropy), c, indexes, t) {
      PackedBit(indexes, entropy, Checksum(hash, entropy), t);
      MaskBits(ShiftRight(hash(entropy), 8 - c), c, t);
      ShiftBits(hash(entropy), 8 - c, t);
    }
  }

  /** An index list spells one entropy and one checksum only. */
  lemma PacksOne(indexes: seq<nat>, e: seq<nat>, x: nat, f: seq<nat>, y: nat)
    requires Packs(indexes, e, x) && Packs(indexes, f, y)
    ensures e == f && x == y
  {
    hide End, Bit, Pow2, Stream, Holds;
    var c := |e| / 4;
    forall t | 0 <= t < c ensures Bit(x, t) <==> Bit(y, t) {
      PackedBit(indexes, e, x, t);
      PackedBit(indexes, f, y, t);
    }
    BitsDetermine(x, y, c);
    forall t | 0 <= t < |e| * 8 ensures End(e, 8, t) <==> End(f, 8, t) {
      PackedBit(indexes, e, x, t + c);
      PackedBit(indexes, f, y, t + c);
    }
    SameWords(e, f, 8);
  }

  /** Entropy and checksum are spelled by one index list only. */
  lemma PackedOnce(a: seq<nat>, b: seq<nat>, e: seq<nat>, x: nat)
    requires Packs(a, e, x) && Packs(b, e, x)
    ensures a == b
  {
    hide End, Bit, Pow2, Stream;
    forall t | 0 <= t < |a| * 11 ensures End(a, 11, t) <==> End(b, 11, t) {
      PackedBit(a, e, x, t);
      PackedBit(b, e, x, t);
    }
    SameWords(a, b, 11);
  }

  /** The bit at `loc` from the front, seen from the end. */
  lemma Mirror(n: nat, w: nat, loc: nat)
    requires w > 0 && loc < Bits(n, w)
    ensures WordOf(loc, w) < n
    ensures var p := Bits(n, w) - 1 - loc;
            WordOf(p, w) == n - 1 - WordOf(loc, w) && PlaceOf(p, w) == w - 1 - PlaceOf(loc, w)
  {
    Within(n, w, loc);
    var q := loc / w;
    assert loc == w * q + loc % w;
    assert n * w == w * (n - 1 - q) + w * q + w;
    DivUnique(n * w - 1 - loc, w, n - 1 - q, w - 1 - loc % w);
  }

  /** Puts the next bit, front to back, into the indexes. */
  method PutIndexBit(indexes: array<nat>, loc: nat, bit: bool, ghost bits: seq<bool>)
    requires loc < |bits| && bits[|bits| - 1 - loc] == bit
    requires Holds(indexes[..], 11, bits, |bits| - loc, |bits|)
    modifies indexes
    ensures Holds(indexes[..], 11, bits, |bits| - loc - 1, |bits|)
  {
    hide Holds, Or;
    ghost var was, p := indexes[..], |bits| - 1 - loc;
    Sized(was, bits, |bits| - loc, |bits|, 11);
    Mirror(indexes.Length, 11, loc);
    if bit {
      indexes[loc / 11] := Or(indexes[loc / 11], 10 - loc % 11);
    }
    assert indexes[..] == if bit then was[loc / 11 := Or(was[loc / 11], 10 - loc % 11)] else was;
    HoldsMore(was, 11, bits, |bits| - loc, |bits|, p, indexes[..]);
  }

  lemma Sized(s: seq<nat>, bits: seq<bool>, lo: nat, hi: nat, w: nat)
    requires w > 0 && Holds(s, w, bits, lo, hi)
    ensures |s| * w == |bits|
  {
  }

  /** Every entropy of an allowed length is written, and as the one list that spells it. */
  method FromEntropy(hash: seq<nat> -> byte, entropy: seq<nat>) returns (r: Result<seq<nat>, Error>)
    requires WordsBelow(entropy, 8)
    ensures |entropy| !in BYTE_LENGTHS ==> r == Err(InvalidLength(|entropy|))
    ensures |entropy| in BYTE_LENGTHS ==> r.Ok? && Spells(hash, entropy, r.value)
    ensures forall indexes :: Spells(hash, entropy, indexes) ==> r == Ok(indexes)
    ensures r.Ok? ==> EndsInDigest(hash(entropy), |entropy|, r.value)
  {
    hide Holds, Stream, Bit, Pow2, End, Mask, ShiftRight, EndsInDigest;
    if |entropy| !in BYTE_LENGTHS {
      return Err(InvalidLength(|entropy|));
    }
    var c := |entropy| / 4;
    var checksum := Checksum(hash, entropy);
    var n := (|entropy| * 8 + c) / 11;
    var indexes := new nat[n](_ => 0);
    ghost var bits := Stream(entropy, checksum, c);
    StreamSize(entropy, checksum, c);
    var loc := 0;
    NothingHeld(indexes[..], 11, bits, |bits|);
    for b := 0 to |entropy|
      invariant loc == 8 * b && Holds(indexes[..], 11, bits, |bits| - loc, |bits|)
    {
      for i := 8 downto 0
        invariant loc == 8 * b + (8 - i) && Holds(indexes[..], 11, bits, |bits| - loc, |bits|)
      {
        EntropyBit(entropy, checksum, c, b, i);
        PutIndexBit(indexes, loc, Bit(entropy[b], i), bits);
        loc := loc + 1;
      }
    }
    for i := c downto 0
      invariant loc == |bits| - i && Holds(indexes[..], 11, bits, i, |bits|)
    {
      ChecksumBit(entropy, checksum, c, i);
      PutIndexBit(indexes, loc, Bit(checksum, i), bits);
      loc := loc + 1;
    }
    r := Ok(indexes[..]);
    SpelledDigest(hash, entropy, indexes[..]);
    forall other | Spells(hash, entropy, other) ensures r == Ok(other) {
      PackedOnce(other, indexes[..], entropy, checksum);
    }
  }

  lemma StreamSize(entropy: seq<nat>, checksum: nat, c: nat)
    ensures |Stream(entropy, checksum, c)| == |entropy| * 8 + c
  {
  }

  lemma EntropyBit(entropy: seq<nat>, checksum: nat, c: nat, b: nat, i: nat)
    requires b < |entropy| && i < 8
    ensures var bits := Stream(entropy, checksum, c);
            var p := |bits| - 1 - (8 * b + (7 - i));
            0 <= p < |bits| && (bits[p] <==> Bit(entropy[b], i))
  {
    hide Bit, End;
    EndAt(entropy, 8, b, i);
    var k := 8 * (|entropy| - 1 - b) + i;
    assert Stream(entropy, checksum, c)[k + c] <==> End(entropy, 8, k);
  }

  lemma ChecksumBit(entropy: seq<nat>, checksum: nat, c: nat, i: nat)
    requires i < c
    ensures var bits := Stream(entropy, checksum, c); i < |bits| && (bits[i] <==> Bit(checksum, i))
  {
  }

  /** The bits of the indexes without the last `c`, counted from the end. */
  ghost function DataBits(indexes: seq<nat>, c: nat): seq<bool>
    requires c <= |indexes| * 11
  {
    seq(|indexes| * 11 - c, t requires 0 <= t < |indexes| * 11 - c => End(indexes, 11, t + c))
  }

  /** Puts the next bit, back to front, into the bytes. */
  method PutEntropyBit(entropy: array<nat>, loc: nat, bit: bool, ghost bits: seq<bool>)
    requires loc < |bits| && bits[loc] == bit
    requires Holds(entropy[..], 8, bits, 0, loc)
    modifies entropy
    ensures Holds(entropy[..], 8, bits, 0, loc + 1)
  {
    hide Holds, Or;
    ghost var was := entropy[..];
    Sized(was, bits, 0, loc, 8);
    var at := entropy.Length - 1 - loc / 8;
    if bit {
      entropy[at] := Or(entropy[at], loc % 8);
    }
    assert entropy[..] == if bit then was[at := Or(was[at], loc % 8)] else was;
    HoldsMore(was, 8, bits, 0, loc, loc, entropy[..]);
  }

  /** The last byte before any other bit is set. */
  lemma LastByte(indexes: seq<nat>, c: nat, entropy: seq<nat>)
    requires 4 <= c <= 8 && |indexes| == 3 * c && |entropy| == 4 * c && WordsBelow(indexes, 11)
    requires entropy[|entropy| - 1] == Mask(ShiftRight(indexes[|indexes| - 1], c), 8)
    requires forall i :: 0 <= i < |entropy| - 1 ==> entropy[i] == 0
    ensures Holds(entropy, 8, DataBits(indexes, c), 0, 11 - c)
  {
    hide Bit, Pow2, Mask, ShiftRight;
    var last := indexes[|indexes| - 1];
    var x := ShiftRight(last, c);
    ShiftBelow(last, c, 11);
    Pow2Monotone(11 - c, 8);
    MaskAll(x, 8);
    forall t | 0 <= t < |indexes| * 11 - c
      ensures End(entropy, 8, t) <==> t < 11 - c && End(indexes, 11, t + c)
    {
      if t < 8 {
        ShiftBits(last, c, t);
        if t >= 11 - c { HighBit(x, 11 - c, t); }
      } else {
        ZeroBits(t % 8);
      }
    }
  }

  lemma DataBit(indexes: seq<nat>, c: nat, k: nat, i: nat)
    requires c <= 11 && k < |indexes| - 1 && i < 11
    ensures var bits := DataBits(indexes, c);
            var loc := 11 * (|indexes| - 1 - k) + i - c;
            0 <= loc < |bits| && (bits[loc] <==> Bit(indexes[k], i))
  {
    hide Bit, End;
    EndAt(indexes, 11, k, i);
    var loc := 11 * (|indexes| - 1 - k) + i - c;
    assert DataBits(indexes, c)[loc] <==> End(indexes, 11, loc + c);
  }

  lemma JoinedBit(indexes: seq<nat>, c: nat, entropy: seq<nat>, checksum: nat, t: nat)
    requires 4 <= c <= 8 && |indexes| == 3 * c && |entropy| == 4 * c && t < 33 * c
    requires Holds(entropy, 8, DataBits(indexes, c), 0, 32 * c)
    requires checksum == Mask(Mask(indexes[|indexes| - 1], 8), c)
    ensures End(indexes, 11, t) <==> if t < c then Bit(checksum, t) else End(entropy, 8, t - c)
  {
    hide Bit, Pow2, Mask, End;
    if t < c {
      var last := indexes[|indexes| - 1];
      MaskBits(Mask(last, 8), c, t);
      MaskBits(last, 8, t);
      EndAt(indexes, 11, |indexes| - 1, t);
    } else {
      assert DataBits(indexes, c)[t - c] <==> End(indexes, 11, t);
    }
  }

  /** Data bits and checksum bits together are all the bits of the list. */
  lemma Joined(indexes: seq<nat>, c: nat, entropy: seq<nat>, checksum: nat)
    requires 4 <= c <= 8 && |indexes| == 3 * c && |entropy| == 4 * c && WordsBelow(indexes, 11)
    requires Holds(entropy, 8, DataBits(indexes, c), 0, 32 * c)
    requires checksum == Mask(Mask(indexes[|indexes| - 1], 8), c)
    ensures Packs(indexes, entropy, checksum)
  {
    hide Bit, Pow2, Mask, End, DataBits;
    forall t | 0 <= t < 33 * c
      ensures End(indexes, 11, t) <==> Stream(entropy, checksum, c)[t]
    {
      JoinedBit(indexes, c, entropy, checksum, t);
    }
  }

  /** A list is accepted if and only if it spells some entropy and its checksum, which is then returned. */
  method ToEntropy(hash: seq<nat> -> byte, indexes: seq<nat>) returns (r: Result<seq<nat>, Error>)
    requires WordsBelow(indexes, 11)
    ensures |indexes| !in WORD_COUNTS ==> r == Err(InvalidLength(|indexes|))
    ensures |indexes| in WORD_COUNTS ==>
              exists e, x :: Packs(indexes, e, x)
                && r == if x == Checksum(hash, e) then Ok(e) else Err(BadChecksum(x, Checksum(hash, e)))
    ensures r.Ok? ==> Spells(hash, r.value, indexes)
    ensures forall e :: Spells(hash, e, indexes) ==> r == Ok(e)
    ensures r.Ok? ==> EndsInDigest(hash(r.value), |r.value|, indexes)
  {
    hide Holds, Stream, Bit, Pow2, End, DataBits, Mask, ShiftRight, EndsInDigest;
    if |indexes| !in WORD_COUNTS {
      return Err(InvalidLength(|indexes|));
    }
    var n := |indexes|;
    var c := n / 3;
    var last := indexes[n - 1];
    var checksum := Mask(Mask(last, 8), c);
    var datalen := (11 * n - c) / 8 - 1;
    var entropy := new nat[datalen + 1](_ => 0);
    entropy[datalen] := Mask(ShiftRight(last, c), 8);
    ghost var bits := DataBits(indexes, c);
    LastByte(indexes, c, entropy[..]);
    var loc := 11 - c;
    for k := n - 1 downto 0
      invariant loc == 11 * (n - k) - c && Holds(entropy[..], 8, bits, 0, loc)
    {
      for i := 0 to 11
        invariant loc == 11 * (n - 1 - k) - c + i && Holds(entropy[..], 8, bits, 0, loc)
      {
        DataBit(indexes, c, k, i);
        PutEntropyBit(entropy, loc, Bit(indexes[k], i), bits);
        loc := loc + 1;
      }
    }
    Joined(indexes, c, entropy[..], checksum);
    var actual := Checksum(hash, entropy[..]);
    r := if actual != checksum then Err(BadChecksum(checksum, actual)) else Ok(entropy[..]);
    if r.Ok? { SpelledDigest(hash, r.value, indexes); }
    forall e | Spells(hash, e, indexes) ensures r == Ok(e) {
      PacksOne(indexes, e, Checksum(hash, e), entropy[..], checksum);
    }
  }
}
