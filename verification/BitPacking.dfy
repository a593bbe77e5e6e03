/** Words of a fixed width as one string of bits, numbered from the last bit of the last word. */
module BitPacking {
  import opened Binary

  predicate WordsBelow(s: seq<nat>, w: nat) {
    forall i :: 0 <= i < |s| ==> s[i] < Pow2(w)
  }

  /** `x | 1 << k`. */
  function Or(x: nat, k: nat): nat {
    if Bit(x, k) then x else x + Pow2(k)
  }

  lemma {:induction false} OrSets(x: nat, k: nat, j: nat)
    ensures Bit(Or(x, k), j) <==> Bit(x, j) || j == k
    decreases k
  {
    if !Bit(x, k) {
      if k == 0 {
        assert (x + 1) / 2 == x / 2;
      } else {
        assert (x + Pow2(k)) / 2 == x / 2 + Pow2(k - 1) && (x + Pow2(k)) % 2 == x % 2;
        if j > 0 { OrSets(x / 2, k - 1, j - 1); }
      }
    }
  }

  lemma {:induction false} OrBelow(x: nat, k: nat, w: nat)
    requires x < Pow2(w) && k < w
    ensures Or(x, k) < Pow2(w)
    decreases k
  {
    if !Bit(x, k) && k > 0 {
      OrBelow(x / 2, k - 1, w - 1);
    }
  }

  lemma {:induction false} BitsDetermine(x: nat, y: nat, w: nat)
    requires x < Pow2(w) && y < Pow2(w)
    requires forall k :: 0 <= k < w ==> (Bit(x, k) <==> Bit(y, k))
    ensures x == y
    decreases w
  {
    if w > 0 {
      assert Bit(x, 0) <==> Bit(y, 0);
      forall k | 0 <= k < w - 1 ensures Bit(x / 2, k) <==> Bit(y / 2, k) {
        assert Bit(x, k + 1) <==> Bit(y, k + 1);
      }
      BitsDetermine(x / 2, y / 2, w - 1);
    }
  }

  lemma {:induction false} HighBit(x: nat, w: nat, k: nat)
    requires x < Pow2(w) && k >= w
    ensures !Bit(x, k)
    decreases k
  {
    if k > 0 { HighBit(x / 2, if w == 0 then 0 else w - 1, k - 1); }
  }

  lemma {:induction false} ShiftBits(x: nat, c: nat, k: nat)
    ensures Bit(ShiftRight(x, c), k) <==> Bit(x, k + c)
    decreases c
  {
    if c > 0 { ShiftBits(x / 2, c - 1, k); }
  }

  lemma {:induction false} ShiftBelow(x: nat, c: nat, w: nat)
    requires c <= w && x < Pow2(w)
    ensures ShiftRight(x, c) < Pow2(w - c)
    decreases c
  {
    if c > 0 { ShiftBelow(x / 2, c - 1, w - 1); }
  }

  /** `x & (1 << c) - 1`. */
  function Mask(x: nat, c: nat): (r: nat)
    ensures r < Pow2(c)
    decreases c
  {
    if c == 0 then 0 else x % 2 + 2 * Mask(x / 2, c - 1)
  }

  lemma {:induction false} MaskBits(x: nat, c: nat, k: nat)
    requires k < c
    ensures Bit(Mask(x, c), k) <==> Bit(x, k)
    decreases k
  {
    assert Mask(x, c) / 2 == Mask(x / 2, c - 1) && Mask(x, c) % 2 == x % 2;
    if k > 0 { MaskBits(x / 2, c - 1, k - 1); }
  }

  /** A mask as wide as the word changes nothing. */
  lemma {:induction false} MaskAll(x: nat, c: nat)
    requires x < Pow2(c)
    ensures Mask(x, c) == x
    decreases c
  {
    if c > 0 { MaskAll(x / 2, c - 1); }
  }

  /** How many bits `n` words have. */
  function Bits(n: nat, w: nat): nat {
    n * w
  }

  /** The word of a bit, counted from the end, and its place in that word. */
  function WordOf(t: nat, w: nat): nat
    requires w > 0
  {
    t / w
  }

  function PlaceOf(t: nat, w: nat): (k: nat)
    requires w > 0
    ensures k < w
  {
    t % w
  }

  /** Bit `t` of the words, counted from the end. */
  ghost predicate End(s: seq<nat>, w: nat, t: nat)
    requires w > 0 && t < Bits(|s|, w)
  {
    Within(|s|, w, t);
    Bit(s[|s| - 1 - WordOf(t, w)], PlaceOf(t, w))
  }

  lemma Times(w: nat, a: nat, b: nat)
    requires a <= b
    ensures a * w <= w * b
  {
  }

  lemma Within(n: nat, w: nat, t: nat)
    requires w > 0 && t < Bits(n, w)
    ensures WordOf(t, w) < n
  {
    var q := t / w;
    assert t == w * q + t % w;
    if q >= n { Times(w, n, q); }
  }

  lemma SplitEqual(p: nat, t: nat, w: nat)
    requires w > 0
    ensures p == t <==> WordOf(p, w) == WordOf(t, w) && PlaceOf(p, w) == PlaceOf(t, w)
  {
    assert p == w * (p / w) + p % w;
    assert t == w * (t / w) + t % w;
  }

  /** The number of bit `k` of word `i` of `n`. */
  function BitNumber(n: nat, w: nat, i: nat, k: nat): (t: nat)
    requires i < n && k < w
    ensures t < Bits(n, w) && WordOf(t, w) == n - 1 - i && PlaceOf(t, w) == k
  {
    var t := w * (n - 1 - i) + k;
    assert w * (n - i) == w * (n - 1 - i) + w;
    Times(w, n - i, n);
    DivUnique(t, w, n - 1 - i, k);
    t
  }

  lemma EndAt(s: seq<nat>, w: nat, i: nat, k: nat)
    requires i < |s| && k < w
    ensures End(s, w, BitNumber(|s|, w, i, k)) <==> Bit(s[i], k)
  {
    hide Bit, Bits, WordOf, PlaceOf, BitNumber;
  }

  /** Setting one bit sets that bit and no other. */
  lemma Place(s: seq<nat>, w: nat, p: nat, t: nat)
    requires w > 0 && p < Bits(|s|, w) && t < Bits(|s|, w) && WordOf(p, w) < |s|
    ensures var at := |s| - 1 - WordOf(p, w);
            End(s[at := Or(s[at], PlaceOf(p, w))], w, t) <==> End(s, w, t) || t == p
  {
    hide Or, Bit, Pow2, Bits, WordOf, PlaceOf;
    Within(|s|, w, t);
    SplitEqual(p, t, w);
    if WordOf(t, w) == WordOf(p, w) {
      OrSets(s[|s| - 1 - WordOf(p, w)], PlaceOf(p, w), PlaceOf(t, w));
    }
  }

  /** The words hold the bits from `lo` below `hi`, and zeros elsewhere. */
  ghost predicate Holds(s: seq<nat>, w: nat, bits: seq<bool>, lo: nat, hi: nat)
    requires w > 0
  {
    && Bits(|s|, w) == |bits|
    && WordsBelow(s, w)
    && forall t :: 0 <= t < |bits| ==> (End(s, w, t) <==> lo <= t < hi && bits[t])
  }

  lemma ZeroBits(k: nat)
    ensures !Bit(0, k)
  {
  }

  lemma NothingHeld(s: seq<nat>, w: nat, bits: seq<bool>, lo: nat)
    requires w > 0 && Bits(|s|, w) == |bits| && forall i :: 0 <= i < |s| ==> s[i] == 0
    ensures Holds(s, w, bits, lo, lo)
  {
    hide Bit, Bits, WordOf, PlaceOf;
    forall t | 0 <= t < |bits| ensures !End(s, w, t) {
      Within(|s|, w, t);
      ZeroBits(PlaceOf(t, w));
    }
  }

  /** One more bit, at either side of those held. */
  lemma HoldsMore(s: seq<nat>, w: nat, bits: seq<bool>, lo: nat, hi: nat, p: nat, after: seq<nat>)
    requires w > 0 && Holds(s, w, bits, lo, hi) && lo <= hi
    requires p < |bits| && (p == hi || p + 1 == lo) && WordOf(p, w) < |s|
    requires
      var at := |s| - 1 - WordOf(p, w);
      after == if bits[p] then s[at := Or(s[at], PlaceOf(p, w))] else s
    ensures p == hi ==> Holds(after, w, bits, lo, p + 1)
    ensures p + 1 == lo ==> Holds(after, w, bits, p, hi)
  {
    hide End, Pow2, Or, Bits, WordOf, PlaceOf;
    if bits[p] {
      var at := |s| - 1 - WordOf(p, w);
      OrBelow(s[at], PlaceOf(p, w), w);
      forall t | 0 <= t < |bits| ensures End(after, w, t) <==> End(s, w, t) || t == p {
        Place(s, w, p, t);
      }
    }
  }

  /** Equal bits, equal words. */
  lemma SameWords(s: seq<nat>, t: seq<nat>, w: nat)
    requires w > 0 && |s| == |t| && WordsBelow(s, w) && WordsBelow(t, w)
    requires forall k :: 0 <= k < Bits(|s|, w) ==> (End(s, w, k) <==> End(t, w, k))
    ensures s == t
  {
    hide End, Bit, Pow2, Bits, BitNumber;
    forall i | 0 <= i < |s| ensures s[i] == t[i] {
      forall k | 0 <= k < w ensures Bit(s[i], k) <==> Bit(t[i], k) {
        EndAt(s, w, i, k);
        EndAt(t, w, i, k);
      }
      BitsDetermine(s[i], t[i], w);
    }
  }
}
