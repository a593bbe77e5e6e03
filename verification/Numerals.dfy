/** Positional numerals in any base, most significant digit first: value, canonical form, leading zeros. */
module Numerals {
  import opened Binary

  predicate DigitsBelow(s: seq<nat>, b: nat) {
    forall i :: 0 <= i < |s| ==> s[i] < b
  }

  function Power(b: nat, n: nat): nat {
    if n == 0 then 1 else b * Power(b, n - 1)
  }

  function Value(s: seq<nat>, b: nat): nat {
    if s == [] then 0 else Value(s[..|s| - 1], b) * b + s[|s| - 1]
  }

  /** The digits of a number, with no leading zero. */
  function DigitsOf(n: nat, b: nat): seq<nat>
    requires b > 1
  {
    if n == 0 then [] else Smaller(n, b); DigitsOf(n / b, b) + [n % b]
  }

  function Zeros(k: nat): seq<nat> {
    seq(k, _ => 0)
  }

  function Leading(s: seq<nat>): nat {
    if s == [] || s[0] != 0 then 0 else 1 + Leading(s[1..])
  }

  /** A number written behind `k` zeros. */
  function Numeral(k: nat, n: nat, b: nat): seq<nat>
    requires b > 1
  {
    Zeros(k) + DigitsOf(n, b)
  }

  lemma ValueSnoc(s: seq<nat>, x: nat, b: nat)
    ensures Value(s + [x], b) == Value(s, b) * b + x
  {
    assert (s + [x])[..|s|] == s;
  }

  lemma PowerPositive(b: nat, n: nat)
    requires b > 0
    ensures Power(b, n) > 0
  {
  }

  lemma Distribute(x: int, p: int, v: int, b: int)
    ensures (x * p + v) * b == x * (b * p) + v * b
  {
    assert (x * p) * b == x * (b * p);
  }

  lemma {:induction false} ValueCons(x: nat, s: seq<nat>, b: nat)
    ensures Value([x] + s, b) == x * Power(b, |s|) + Value(s, b)
  {
    if s == [] {
      assert [x] + s == [] + [x];
      ValueSnoc([], x, b);
      assert x * 1 == x;
    } else {
      var init, last, p := s[..|s| - 1], s[|s| - 1], Power(b, |s| - 1);
      ValueCons(x, init, b);
      assert [x] + s == ([x] + init) + [last];
      ValueSnoc([x] + init, last, b);
      Distribute(x, p, Value(init, b), b);
    }
  }

  lemma {:induction false} ValueBelow(s: seq<nat>, b: nat)
    requires b > 0 && DigitsBelow(s, b)
    ensures Value(s, b) < Power(b, |s|)
  {
    if s != [] {
      var init, p := s[..|s| - 1], Power(b, |s| - 1);
      ValueBelow(init, b);
      Product(Value(init, b) + 1, p, b);
      assert p * b == b * p;
    }
  }

  lemma {:induction false} ValueWithLeadingDigit(s: seq<nat>, b: nat)
    requires b > 0 && s != [] && s[0] != 0
    ensures Value(s, b) > 0
  {
    if |s| > 1 {
      ValueWithLeadingDigit(s[..|s| - 1], b);
      assert Value(s[..|s| - 1], b) * b > 0;
    } else {
      assert s == [] + [s[0]];
      ValueSnoc([], s[0], b);
    }
  }

  lemma Product(p: nat, q: nat, b: nat)
    requires p <= q
    ensures p * b <= q * b && (p > 0 ==> p * b == (p - 1) * b + b)
  {
  }

  lemma DigitsSnoc(q: nat, r: nat, b: nat)
    requires b > 1 && r < b && q * b + r > 0
    ensures DigitsOf(q * b + r, b) == DigitsOf(q, b) + [r]
  {
    DivUnique(q * b + r, b, q, r);
  }

  /** Digits without a leading zero are the canonical digits of their value. */
  lemma {:induction false} CanonicalDigits(s: seq<nat>, b: nat)
    requires b > 1 && DigitsBelow(s, b) && (s == [] || s[0] != 0)
    ensures DigitsOf(Value(s, b), b) == s
  {
    if s != [] {
      var init, last := s[..|s| - 1], s[|s| - 1];
      CanonicalDigits(init, b);
      ValueWithLeadingDigit(s, b);
      DigitsSnoc(Value(init, b), last, b);
      assert s == init + [last];
    }
  }

  lemma {:induction false} DigitsOfNumber(n: nat, b: nat)
    requires b > 1
    ensures var s := DigitsOf(n, b); Value(s, b) == n && DigitsBelow(s, b) && (s == [] || s[0] != 0)
    decreases n
  {
    if n > 0 {
      Smaller(n, b);
      DigitsOfNumber(n / b, b);
      ValueSnoc(DigitsOf(n / b, b), n % b, b);
      if n / b == 0 { assert DigitsOf(n, b) == [n % b]; }
    }
  }

  lemma Smaller(n: nat, b: nat)
    requires n > 0 && b > 1
    ensures n / b < n && n == (n / b) * b + n % b && n % b < b
  {
    var q := n / b;
    assert n == q * b + n % b;
    if q > 0 { Product(2, b, q); assert q * b == b * q; }
  }

  lemma {:induction false} LeadingSplits(s: seq<nat>)
    ensures Leading(s) <= |s| && s[..Leading(s)] == Zeros(Leading(s))
    ensures Leading(s) == |s| || s[Leading(s)] != 0
  {
    if s != [] && s[0] == 0 {
      LeadingSplits(s[1..]);
      var k := Leading(s[1..]);
      assert s[..k + 1] == [0] + s[1..][..k];
      assert Zeros(k + 1) == [0] + Zeros(k);
    }
  }

  lemma {:induction false} LeadingOf(k: nat, s: seq<nat>)
    requires s == [] || s[0] != 0
    ensures Leading(Zeros(k) + s) == k
  {
    if k > 0 {
      LeadingOf(k - 1, s);
      assert (Zeros(k) + s)[1..] == Zeros(k - 1) + s;
    } else {
      assert Zeros(0) + s == s;
    }
  }

  lemma {:induction false} ZerosAddNothing(k: nat, s: seq<nat>, b: nat)
    ensures Value(Zeros(k) + s, b) == Value(s, b)
  {
    if k > 0 {
      ZerosAddNothing(k - 1, s, b);
      assert Zeros(k) + s == [0] + (Zeros(k - 1) + s);
      ValueCons(0, Zeros(k - 1) + s, b);
    } else {
      assert Zeros(0) + s == s;
    }
  }

  /** Every digit string is the numeral of its leading zeros and its value. */
  lemma NumeralOf(s: seq<nat>, b: nat)
    requires b > 1 && DigitsBelow(s, b)
    ensures s == Numeral(Leading(s), Value(s, b), b)
    ensures s[Leading(s)..] == DigitsOf(Value(s, b), b)
  {
    LeadingSplits(s);
    var k := Leading(s);
    assert s == s[..k] + s[k..];
    ZerosAddNothing(k, s[k..], b);
    CanonicalDigits(s[k..], b);
  }

  /** A numeral gives back its leading zeros and its value. */
  lemma OfNumeral(k: nat, n: nat, b: nat)
    requires b > 1
    ensures var s := Numeral(k, n, b); DigitsBelow(s, b) && Leading(s) == k && Value(s, b) == n
  {
    DigitsOfNumber(n, b);
    LeadingOf(k, DigitsOf(n, b));
    ZerosAddNothing(k, DigitsOf(n, b), b);
  }

  /** Rewriting in another base and back, leading zeros kept, changes nothing. */
  lemma ConversionRoundTrip(s: seq<nat>, a: nat, b: nat)
    requires a > 1 && b > 1 && DigitsBelow(s, a)
    ensures var t := Numeral(Leading(s), Value(s, a), b);
            DigitsBelow(t, b) && Numeral(Leading(t), Value(t, b), a) == s
  {
    OfNumeral(Leading(s), Value(s, a), b);
    NumeralOf(s, a);
  }
}
