/** The search for the height of the block that holds a kernel, over the kernel counts in the headers. */
module KernelSearch {
  import opened Collections
  import opened Options

  /**
   The kernel lies past the end of the block below and not past the end of this one; `sizes[h]` is the
   size of the kernel range in the header of height `h`.
   */
  predicate HeldAt(sizes: seq<nat>, index: nat, height: nat)
    requires height < |sizes|
  {
    index <= sizes[height] && (height == 0 || sizes[height - 1] < index)
  }

  lemma OneHeight(sizes: seq<nat>, index: nat, a: nat, b: nat)
    requires Increasing(sizes) && a < |sizes| && b < |sizes|
    requires HeldAt(sizes, index, a) && HeldAt(sizes, index, b)
    ensures a == b
  {
  }

  datatype Search = Between(min: nat, max: nat) | Found(height: nat)

  /** One turn of the loop. */
  function Probe(sizes: seq<nat>, index: nat, min: nat, max: nat): Search
    requires min <= max < |sizes|
  {
    var height := max - (max - min) / 2;
    if height == 0 then Found(height)
    else if index > sizes[height] then Between(height, max)
    else if index < sizes[height - 1] then Between(min, height)
    else if index == sizes[height - 1] then Found(height - 1)
    else Found(height)
  }

  /** Where the loop stands after `turns` turns. */
  function After(sizes: seq<nat>, index: nat, min: nat, max: nat, turns: nat): Search
    requires min <= max < |sizes|
    decreases turns
  {
    if turns == 0 then Between(min, max)
    else match Probe(sizes, index, min, max)
      case Found(h) => Found(h)
      case Between(lo, hi) => After(sizes, index, lo, hi, turns - 1)
  }

  /** What a caller has to know for the loop to end. */
  predicate Findable(sizes: seq<nat>, index: nat, min: nat, max: nat)
    requires min <= max < |sizes|
  {
    max == 0 || ((if min == max then sizes[max - 1] else sizes[min]) <= index <= sizes[max])
  }

  lemma {:induction false} Ends(sizes: seq<nat>, index: nat, min: nat, max: nat) returns (turns: nat)
    requires Increasing(sizes) && min <= max < |sizes| && Findable(sizes, index, min, max)
    ensures After(sizes, index, min, max, turns).Found?
    decreases max - min
  {
    match Probe(sizes, index, min, max)
    case Found(_) =>
      turns := 1;
    case Between(lo, hi) =>
      var rest := Ends(sizes, index, lo, hi);
      turns := rest + 1;
  }

  lemma {:induction false} NeverEnds(sizes: seq<nat>, index: nat, min: nat, max: nat, turns: nat)
    requires Increasing(sizes) && min <= max < |sizes| && !Findable(sizes, index, min, max)
    ensures !After(sizes, index, min, max, turns).Found?
    decreases turns
  {
    if turns > 0 {
      match Probe(sizes, index, min, max)
      case Found(_) => assert false;
      case Between(lo, hi) => NeverEnds(sizes, index, lo, hi, turns - 1);
    }
  }

  /** The loop ends exactly when the kernel lies in the range searched; nothing inside it notices otherwise. */
  lemma EndsExactlyWhenFindable(sizes: seq<nat>, index: nat, min: nat, max: nat)
    requires Increasing(sizes) && min <= max < |sizes|
    ensures (exists turns: nat :: After(sizes, index, min, max, turns).Found?) <==> Findable(sizes, index, min, max)
  {
    if Findable(sizes, index, min, max) {
      var turns := Ends(sizes, index, min, max);
    } else {
      forall turns: nat ensures !After(sizes, index, min, max, turns).Found? {
        NeverEnds(sizes, index, min, max, turns);
      }
    }
  }

  /** Without a lower bound, a kernel before the end of the first block is looked for without end. */
  lemma GenesisKernelNotFindable(sizes: seq<nat>, index: nat, max: nat)
    requires Increasing(sizes) && 0 < max < |sizes| && index < sizes[0]
    ensures forall turns: nat :: !After(sizes, index, 0, max, turns).Found?
  {
    forall turns: nat ensures !After(sizes, index, 0, max, turns).Found? {
      NeverEnds(sizes, index, 0, max, turns);
    }
  }

  /** The height below `minHeight` is where the search starts from. */
  function LowEnd(minHeight: Option<nat>): nat {
    match minHeight
    case None => 0
    case Some(h) => if h == 0 then 0 else h - 1
  }

  function HighEnd(maxHeight: Option<nat>, head: nat): nat {
    match maxHeight
    case None => head
    case Some(h) => h
  }

  /** The height of the block that holds the kernel. */
  method GetHeaderForKernelIndex(sizes: seq<nat>, head: nat, index: nat, minHeight: Option<nat>, maxHeight: Option<nat>)
    returns (found: nat)
    requires Increasing(sizes) && LowEnd(minHeight) <= HighEnd(maxHeight, head) < |sizes|
    requires Findable(sizes, index, LowEnd(minHeight), HighEnd(maxHeight, head))
    ensures found < |sizes|
    ensures HighEnd(maxHeight, head) == 0 ==> found == 0
    ensures HighEnd(maxHeight, head) > 0 || index <= sizes[0] ==> HeldAt(sizes, index, found)
    ensures found <= (if maxHeight.Some? then maxHeight.value else head)
    ensures minHeight.Some? ==> minHeight.value <= found + 2
    ensures HighEnd(maxHeight, head) > 0 || index <= sizes[0] ==>
              forall h :: 0 <= h < |sizes| && HeldAt(sizes, index, h) ==> h == found
  {
    var min: nat := LowEnd(minHeight);
    var max: nat := HighEnd(maxHeight, head);
    while true
      invariant LowEnd(minHeight) <= min <= max <= HighEnd(maxHeight, head)
      invariant Findable(sizes, index, min, max)
      invariant max == 0 ==> HighEnd(maxHeight, head) == 0
      decreases max - min
    {
      var height: nat := max - (max - min) / 2;
      if height == 0 {
        found := height;
        break;
      }
      if index > sizes[height] {
        min := height;
      } else if index < sizes[height - 1] {
        max := height;
      } else {
        found := if index == sizes[height - 1] then height - 1 else height;
        break;
      }
    }
    forall h | 0 <= h < |sizes| && HeldAt(sizes, index, h) && (HighEnd(maxHeight, head) > 0 || index <= sizes[0])
      ensures h == found
    {
      OneHeight(sizes, index, h, found);
    }
  }
}
