/** The block reward, halved at a fixed interval, and the closed form of what has been issued so far. */
module Supply {
  import opened Binary
  import opened Options

  const U64_LIMIT: nat := 0x1_0000_0000_0000_0000

  const GRIN_BASE: nat := 1_000_000_000
  const REWARD: nat := 50 * GRIN_BASE

  const HALVING_INTERVAL: nat := 210_000
  const AUTOTEST_HALVING_INTERVAL: nat := 144

  /** A checked shift of a 64-bit word to the right: by 64 or more it overflows. */
  function CheckedShift(x: nat, k: nat): Option<nat> {
    if k < 64 then Some(ShiftRight(x, k)) else None
  }

  function RateAfter(halvings: nat): nat {
    if halvings >= 64 then 0 else ShiftRight(REWARD, halvings)
  }

  function SaturatingAdd(x: nat, y: nat): nat {
    if x + y < U64_LIMIT then x + y else U64_LIMIT - 1
  }

  /** The reward of one block, fees included. */
  function Reward(interval: nat, height: nat, fee: nat): nat
    requires interval > 0
  {
    SaturatingAdd(RateAfter(height / interval), fee)
  }

  /** What the first `blocks` blocks have been rewarded. */
  ghost function Issued(interval: nat, blocks: nat): nat
    requires interval > 0
  {
    if blocks == 0 then 0 else Issued(interval, blocks - 1) + Reward(interval, blocks - 1, 0)
  }

  /** The first `n` halved rewards. */
  ghost function Halved(n: nat): nat
    requires n <= 64
  {
    if n == 0 then 0 else Halved(n - 1) + ShiftRight(REWARD, n - 1)
  }

  lemma {:induction false} HalvedBound(n: nat)
    requires n < 64
    ensures Halved(n) + 2 * ShiftRight(REWARD, n) <= 2 * REWARD
    ensures Halved(n) + ShiftRight(REWARD, n) < 2 * REWARD
  {
    if n > 0 {
      HalvedBound(n - 1);
      ShiftOnce(REWARD, n - 1);
    }
  }

  /** Twice the rewards of the first interval fit in 64 bits. */
  predicate SupplyFits(interval: nat) {
    interval > 0 && 2 * interval * REWARD < U64_LIMIT
  }

  lemma BothIntervalsFit()
    ensures SupplyFits(HALVING_INTERVAL) && SupplyFits(AUTOTEST_HALVING_INTERVAL)
    ensures HALVING_INTERVAL == 210_000 && AUTOTEST_HALVING_INTERVAL == 144
  {
  }

  /** A shift to the right is a division by a power of two. */
  lemma {:induction false} Halving(x: nat, c: nat)
    ensures ShiftRight(x, c) * Pow2(c) <= x < (ShiftRight(x, c) + 1) * Pow2(c)
    decreases c
  {
    hide ShiftRight;
    if c == 0 {
      ShiftNone(x);
    } else {
      Halving(x, c - 1);
      ShiftOnce(x, c - 1);
      HalfAgain(ShiftRight(x, c - 1), Pow2(c - 1), x);
    }
  }

  lemma ShiftNone(x: nat)
    ensures ShiftRight(x, 0) == x && Pow2(0) == 1
  {
  }

  lemma HalfAgain(q: nat, p: nat, x: nat)
    requires q * p <= x < (q + 1) * p
    ensures (q / 2) * (2 * p) <= x < (q / 2 + 1) * (2 * p)
  {
    assert (q / 2) * (2 * p) == (2 * (q / 2)) * p;
    assert (q / 2 + 1) * (2 * p) == (2 * (q / 2) + 2) * p;
    Scaled(2 * (q / 2), q, p);
    Scaled(q + 1, 2 * (q / 2) + 2, p);
  }

  /** A block is worth 50 coins, halved once for every interval passed, and its fees; at most what 64 bits hold. */
  lemma RewardMeans(interval: nat, height: nat, fee: nat) returns (rate: nat)
    requires interval > 0
    ensures height / interval >= 64 ==> rate == 0
    ensures height / interval < 64 ==>
              rate * Pow2(height / interval) <= 50_000_000_000 < (rate + 1) * Pow2(height / interval)
    ensures Reward(interval, height, fee) ==
            if rate + fee < 0x1_0000_0000_0000_0000 then rate + fee else 0xFFFF_FFFF_FFFF_FFFF
  {
    hide ShiftRight;
    rate := RateAfter(height / interval);
    if height / interval < 64 { Halving(REWARD, height / interval); }
  }

  /** All blocks of `full` intervals, and `blocks` more at the next rate. */
  ghost function Closed(interval: nat, full: nat, blocks: nat): nat
    requires full < 64
  {
    interval * Halved(full) + ShiftRight(REWARD, full) * blocks
  }

  lemma Scaled(a: nat, b: nat, d: nat)
    requires a <= b
    ensures a * d <= b * d
    ensures a < b && d > 0 ==> a * d < b * d
  {
  }

  lemma ClosedBound(interval: nat, full: nat, blocks: nat)
    requires full < 64 && blocks <= interval && interval > 0
    ensures Closed(interval, full, blocks) < 2 * interval * REWARD
  {
    hide Halved, ShiftRight;
    var rate, sum := ShiftRight(REWARD, full), Halved(full);
    HalvedBound(full);
    Scaled(blocks, interval, rate);
    Scaled(sum + rate, 2 * REWARD, interval);
    assert (sum + rate) * interval == interval * sum + interval * rate;
    assert (2 * REWARD) * interval == 2 * interval * REWARD;
  }

  lemma NoFee(halvings: nat)
    requires halvings < 64
    ensures SaturatingAdd(RateAfter(halvings), 0) == ShiftRight(REWARD, halvings)
  {
  }

  lemma IssuedStep(interval: nat, full: nat, blocks: nat)
    requires interval > 0 && full < 64 && blocks < interval
    ensures Issued(interval, full * interval + blocks + 1) ==
            Issued(interval, full * interval + blocks) + ShiftRight(REWARD, full)
  {
    hide ShiftRight, SaturatingAdd;
    DivUnique(full * interval + blocks, interval, full, blocks);
    NoFee(full);
  }

  lemma CloseBlock(interval: nat, full: nat, blocks: nat)
    requires full < 64
    ensures Closed(interval, full, blocks + 1) == Closed(interval, full, blocks) + ShiftRight(REWARD, full)
  {
    hide ShiftRight, Halved;
    var rate := ShiftRight(REWARD, full);
    assert rate * (blocks + 1) == rate * blocks + rate;
  }

  lemma CloseInterval(interval: nat, full: nat)
    requires full < 63
    ensures Closed(interval, full + 1, 0) == Closed(interval, full, interval)
  {
    hide ShiftRight;
    var rate, sum := ShiftRight(REWARD, full), Halved(full);
    assert Halved(full + 1) == sum + rate;
    assert interval * (sum + rate) == interval * sum + rate * interval;
    assert ShiftRight(REWARD, full + 1) * 0 == 0;
  }

  /** Issued block by block or interval by interval, the supply is the same. */
  lemma {:induction false} IssuedClosed(interval: nat, full: nat, blocks: nat)
    requires interval > 0 && full < 64 && blocks <= interval
    ensures Issued(interval, full * interval + blocks) == Closed(interval, full, blocks)
    decreases full, blocks
  {
    hide ShiftRight, Closed, Reward, Halved;
    if blocks > 0 {
      IssuedClosed(interval, full, blocks - 1);
      IssuedStep(interval, full, blocks - 1);
      CloseBlock(interval, full, blocks - 1);
    } else if full > 0 {
      IssuedClosed(interval, full - 1, interval);
      CloseInterval(interval, full - 1);
      assert (full - 1) * interval + interval == full * interval;
    } else {
      ClosedNone(interval);
      assert 0 * interval + 0 == 0;
    }
  }

  lemma ClosedNone(interval: nat)
    ensures Closed(interval, 0, 0) == 0
  {
  }

  lemma NoHalving(interval: nat)
    ensures interval * Halved(0) == 0
  {
  }

  lemma NextInterval(interval: nat, i: nat)
    requires interval > 0 && i < 64
    ensures interval * Halved(i) + interval * ShiftRight(REWARD, i) == interval * Halved(i + 1) < 2 * interval * REWARD
  {
    hide ShiftRight;
    ClosedBound(interval, i, interval);
    var rate, sum := ShiftRight(REWARD, i), Halved(i);
    assert Halved(i + 1) == sum + rate;
    assert interval * (sum + rate) == interval * sum + interval * rate;
    assert rate * interval == interval * rate;
  }

  lemma SinceHalving(interval: nat, height: nat)
    requires interval > 0 && height / interval < 64
    ensures
      var halvings := height / interval;
      interval * Halved(halvings) + ShiftRight(REWARD, halvings) * (height % interval + 1) ==
      Issued(interval, height + 1) < 2 * interval * REWARD
  {
    hide ShiftRight, Halved, Issued;
    var q, r := height / interval, height % interval;
    ClosedBound(interval, q, r + 1);
    IssuedClosed(interval, q, r + 1);
    assert q * interval + r == height;
  }

  /**
   Adds up the intervals passed and the blocks since. It overflows exactly from the 64th halving on,
   in the shift; before, every value on the way fits in 64 bits.
   */
  method TotalReward(interval: nat, height: nat, genesisHadReward: bool) returns (r: Option<nat>)
    requires SupplyFits(interval)
    ensures r.None? <==> height / interval >= 64
    ensures r.Some? && genesisHadReward ==> r.value == Issued(interval, height + 1)
    ensures r.Some? && !genesisHadReward ==> r.value == Issued(interval, height + 1) - Reward(interval, 0, 0)
    ensures r.Some? ==> r.value < 2 * interval * REWARD
  {
    hide ShiftRight, Issued, Halved, Reward;
    NoHalving(interval);
    var halvings := height / interval;
    var total := 0;
    var i := 0;
    while i < halvings
      invariant 0 <= i <= halvings && i <= 64
      invariant total == interval * Halved(i)
    {
      var rate := CheckedShift(REWARD, i);
      if rate.None? {
        return None;
      }
      NextInterval(interval, i);
      assert total + interval * rate.value < U64_LIMIT;
      total := total + interval * rate.value;
      i := i + 1;
    }
    var remainder := height % interval;
    var rate := CheckedShift(REWARD, halvings);
    if rate.None? {
      return None;
    }
    SinceHalving(interval, height);
    total := total + rate.value * (remainder + 1);
    assert total < U64_LIMIT;
    if !genesisHadReward {
      FirstReward(interval, height);
      total := total - REWARD;
    }
    r := Some(total);
  }

  lemma FirstReward(interval: nat, height: nat)
    requires interval > 0
    ensures Reward(interval, 0, 0) == REWARD
    ensures Issued(interval, height + 1) >= REWARD
  {
    if height > 0 {
      FirstReward(interval, height - 1);
    } else {
      DivUnique(0, interval, 0, 0);
    }
  }
}
