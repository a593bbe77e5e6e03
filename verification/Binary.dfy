/** Powers of two and the bit counts that position arithmetic in a Merkle mountain range rests on. */
module Binary {

  function Pow2(k: nat): (r: nat)
    ensures r >= 1
  {
    if k == 0 then 1 else 2 * Pow2(k - 1)
  }

  /** The number of one bits of `n`. */
  function PopCount(n: nat): nat {
    if n == 0 then 0 else n % 2 + PopCount(n / 2)
  }

  /** The number of one bits of `n` below its lowest zero bit. */
  function TrailingOnes(n: nat): nat {
    if n % 2 == 0 then 0 else 1 + TrailingOnes(n / 2)
  }

  /** The number of binary digits of `n`: 64 minus its leading zeros in a 64-bit word. */
  function BitLength(n: nat): (k: nat)
    ensures n < Pow2(k)
    ensures n > 0 ==> k > 0 && Pow2(k - 1) <= n
  {
    if n == 0 then 0 else 1 + BitLength(n / 2)
  }

  /** `n & mask != 0` for a mask that is a power of two. */
  predicate TestBit(n: nat, mask: nat)
    requires mask > 0
  {
    n / mask % 2 == 1
  }

  /** Bit `k` of `n`. */
  predicate Bit(n: nat, k: nat) {
    if k == 0 then n % 2 == 1 else Bit(n / 2, k - 1)
  }

  /** `x >> c`. */
  function ShiftRight(x: nat, c: nat): (r: nat)
    ensures r <= x
  {
    if c == 0 then x else ShiftRight(x / 2, c - 1)
  }

  lemma {:induction false} ShiftOnce(x: nat, c: nat)
    ensures ShiftRight(x, c + 1) == ShiftRight(x, c) / 2
    decreases c
  {
    if c > 0 { ShiftOnce(x / 2, c - 1); }
  }

  lemma {:induction false} Pow2Monotone(a: nat, b: nat)
    requires a <= b
    ensures Pow2(a) <= Pow2(b)
    decreases b
  {
    if a < b { Pow2Monotone(a, b - 1); }
  }

  lemma {:induction false} Pow2Exceeds(k: nat)
    ensures k < Pow2(k)
  {
    if k > 0 { Pow2Exceeds(k - 1); }
  }

  lemma {:induction false} PopCountBound(n: nat)
    ensures PopCount(n) <= n
  {
    if n > 0 { PopCountBound(n / 2); }
  }

  /** Adding one clears the trailing ones and sets the zero above them. */
  lemma {:induction false} PopCountSucc(n: nat)
    ensures PopCount(n + 1) + TrailingOnes(n) == PopCount(n) + 1
  {
    if n % 2 == 1 {
      PopCountSucc(n / 2);
      assert (n + 1) / 2 == n / 2 + 1;
    } else {
      assert (n + 1) / 2 == n / 2;
    }
  }

  /** Setting the lowest zero bit adds one one-bit and lengthens the trailing run. */
  lemma {:induction false} SetLowestZero(n: nat)
    ensures PopCount(n + Pow2(TrailingOnes(n))) == PopCount(n) + 1
    ensures TrailingOnes(n + Pow2(TrailingOnes(n))) > TrailingOnes(n)
  {
    var h := TrailingOnes(n);
    if h == 0 {
      assert (n + 1) / 2 == n / 2;
    } else {
      SetLowestZero(n / 2);
      assert (n + Pow2(h)) / 2 == n / 2 + Pow2(h - 1);
      assert (n + Pow2(h)) % 2 == 1;
    }
  }

  /** Clearing bit `h` of a trailing run of ones cuts the run down to length `h`. */
  lemma {:induction false} ClearTrailingOne(n: nat, h: nat)
    requires h < TrailingOnes(n)
    ensures Pow2(h) <= n
    ensures PopCount(n - Pow2(h)) == PopCount(n) - 1
    ensures TrailingOnes(n - Pow2(h)) == h
    decreases h
  {
    if h == 0 {
      assert (n - 1) / 2 == n / 2 && (n - 1) % 2 == 0;
    } else {
      ClearTrailingOne(n / 2, h - 1);
      assert n == 2 * (n / 2) + 1;
      assert n - Pow2(h) == 2 * (n / 2 - Pow2(h - 1)) + 1;
      assert (n - Pow2(h)) / 2 == n / 2 - Pow2(h - 1);
      assert (n - Pow2(h)) % 2 == 1;
    }
  }

  lemma {:induction false} DivPow2Half(n: nat, k: nat)
    ensures n / Pow2(k + 1) == (n / 2) / Pow2(k)
  {
    var d := Pow2(k);
    var q := (n / 2) / d;
    var r := (n / 2) % d;
    assert n / 2 == q * d + r;
    assert n == (2 * d) * q + (2 * r + n % 2) by {
      assert n == 2 * (n / 2) + n % 2;
      assert 2 * (q * d) == (2 * d) * q;
    }
    assert 0 <= 2 * r + n % 2 < 2 * d;
    DivUnique(n, 2 * d, q, 2 * r + n % 2);
  }

  lemma DivUnique(n: int, d: int, q: int, r: int)
    requires d > 0 && n == d * q + r && 0 <= r < d
    ensures n / d == q && n % d == r
  {
    var q', r' := n / d, n % d;
    assert n == d * q' + r';
    assert d * (q - q') == r' - r by { assert d * (q - q') == d * q - d * q'; }
    if q > q' {
      MulAtLeast(d, q - q');
    } else if q < q' {
      MulAtLeast(d, q' - q);
    }
  }

  lemma MulAtLeast(d: int, k: int)
    requires d > 0 && k >= 1
    ensures d * k >= d
  {
    assert d * k == d + d * (k - 1);
    assert d * (k - 1) >= 0;
  }

  lemma {:induction false} TestBitIsBit(n: nat, k: nat)
    ensures TestBit(n, Pow2(k)) <==> Bit(n, k)
    decreases k
  {
    if k > 0 {
      DivPow2Half(n, k - 1);
      TestBitIsBit(n / 2, k - 1);
    } else {
      assert n / Pow2(0) == n;
    }
  }

  /** Within and just above the trailing run, `Bit` reads the run's length. */
  lemma {:induction false} BitOfRun(n: nat, h: nat)
    requires h <= TrailingOnes(n)
    ensures Bit(n, h) <==> h < TrailingOnes(n)
    decreases h
  {
    if h > 0 {
      BitOfRun(n / 2, h - 1);
    }
  }

  /** Setting the lowest zero bit leaves every higher bit alone. */
  lemma {:induction false} SetLowestZeroKeepsHigher(n: nat, k: nat)
    requires k > TrailingOnes(n)
    ensures Bit(n + Pow2(TrailingOnes(n)), k) <==> Bit(n, k)
    decreases k
  {
    var h := TrailingOnes(n);
    if h == 0 {
      assert (n + 1) / 2 == n / 2;
    } else {
      assert (n + Pow2(h)) / 2 == n / 2 + Pow2(h - 1);
      SetLowestZeroKeepsHigher(n / 2, k - 1);
    }
  }
}
