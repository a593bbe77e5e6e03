/**
 The difficulty bits a header has to carry. At the start of a window they depend on the header
 that opened the last one, which is looked up by height in a header range.
 */
module Difficulty {
  import opened Options
  import opened ChainTree

  const DAY_HEIGHT: nat := 144
  const WEEK_HEIGHT: nat := 7 * DAY_HEIGHT
  const DIFFICULTY_ADJUST_WINDOW: nat := 2 * WEEK_HEIGHT

  /** The new bits, from the height, bits and time of the parent and the time the last window was opened. */
  type NextBits = (nat, int, int, int) -> int

  /** The child of `prev` opens a new window. */
  predicate StartsWindow(prev: Header) {
    (prev.height + 1) % DIFFICULTY_ADJUST_WINDOW == 0
  }

  function StartHeight(prev: Header): nat {
    if prev.height >= DIFFICULTY_ADJUST_WINDOW - 1 then prev.height - (DIFFICULTY_ADJUST_WINDOW - 1) else 0
  }

  /** The bits demanded of a child of `prev`, if the range has the header to look up. */
  function ExpectedBits(nextBits: NextBits, headers: Headers, range: seq<Hash>, prev: Header): Option<int> {
    if !StartsWindow(prev) then Some(prev.bits)
    else
      var start := StartHeight(prev);
      if start >= |range| || range[start] !in headers then None
      else Some(nextBits(prev.height, prev.bits, prev.time, headers[range[start]].time))
  }

  predicate BitsOk(nextBits: NextBits, headers: Headers, range: seq<Hash>, h: Header, prev: Header) {
    ExpectedBits(nextBits, headers, range, prev) == Some(h.bits)
  }

  /**
   Said with heights: every 2016th header opens a window and carries the bits computed from its parent
   and the time of the header 2015 below that one in the range; every other one has those of its parent.
   */
  ghost predicate Demanded(nextBits: NextBits, headers: Headers, range: seq<Hash>, prev: Header, bits: int) {
    if (prev.height + 1) % 2016 != 0 then bits == prev.bits
    else
      && prev.height - 2015 < |range| && range[prev.height - 2015] in headers
      && bits == nextBits(prev.height, prev.bits, prev.time, headers[range[prev.height - 2015]].time)
  }

  lemma BitsMean(nextBits: NextBits, headers: Headers, range: seq<Hash>, h: Header, prev: Header)
    ensures BitsOk(nextBits, headers, range, h, prev) <==> Demanded(nextBits, headers, range, prev, h.bits)
  {
  }

  /** Two ranges that hold the same header where the last window was opened demand the same. */
  lemma SameStart(nextBits: NextBits, headers: Headers, range: seq<Hash>, own: seq<Hash>, prev: Header)
    requires StartsWindow(prev) ==>
               StartHeight(prev) < |range| && StartHeight(prev) < |own|
                 && range[StartHeight(prev)] == own[StartHeight(prev)]
    ensures ExpectedBits(nextBits, headers, range, prev) == ExpectedBits(nextBits, headers, own, prev)
  {
  }

  /**
   A range decides about every header as the header's own branch does if and only if no window starts
   or the two openings of the last window give the same bits.
   */
  lemma RangeDecidesAsBranch(nextBits: NextBits, headers: Headers, genesis: Header, range: seq<Hash>, prev: Header)
    requires Tree(headers, genesis) && Stored(headers, prev)
    ensures
      var own := ChainTo(headers, genesis, prev);
      var start := StartHeight(prev);
      (forall bits :: ExpectedBits(nextBits, headers, range, prev) == Some(bits) <==>
                      ExpectedBits(nextBits, headers, own, prev) == Some(bits))
      <==>
      || !StartsWindow(prev)
      || (&& start < |range| && range[start] in headers && own[start] in headers
          && nextBits(prev.height, prev.bits, prev.time, headers[range[start]].time) ==
             nextBits(prev.height, prev.bits, prev.time, headers[own[start]].time))
  {
    if StartsWindow(prev) {
      var own := ChainTo(headers, genesis, prev);
      var a := Ancestor(headers, genesis, prev, StartHeight(prev));
      var bits := ExpectedBits(nextBits, headers, own, prev).value;
      assert ExpectedBits(nextBits, headers, own, prev) == Some(bits);
    }
  }

  /**
   Whatever the arithmetic, a range demands what the branch does if and only if no window starts or
   the last one was opened at the same time on both.
   */
  lemma SameWhateverArithmetic(headers: Headers, genesis: Header, range: seq<Hash>, prev: Header)
    requires Tree(headers, genesis) && Stored(headers, prev)
    ensures
      var own := ChainTo(headers, genesis, prev);
      var start := StartHeight(prev);
      (forall f: NextBits :: ExpectedBits(f, headers, range, prev) == ExpectedBits(f, headers, own, prev))
      <==>
      || !StartsWindow(prev)
      || (&& start < |range| && range[start] in headers && own[start] in headers
          && headers[range[start]].time == headers[own[start]].time)
  {
    if StartsWindow(prev) {
      var own := ChainTo(headers, genesis, prev);
      var a := Ancestor(headers, genesis, prev, StartHeight(prev));
      var opening: NextBits := (_, _, _, time) => time;
      assert ExpectedBits(opening, headers, own, prev) == Some(a.time);
    }
  }
}
