/** Elements laid end to end in a byte file, and the index of offsets and sizes into it. */
module Chunks {
  import opened Collections

  type byte = b: int | 0 <= b < 256

  function Concat(chunks: seq<seq<byte>>): seq<byte> {
    if chunks == [] then [] else Concat(chunks[..|chunks| - 1]) + chunks[|chunks| - 1]
  }

  /** Where element `i` starts. */
  function Offset(chunks: seq<seq<byte>>, i: nat): nat
    requires i <= |chunks|
  {
    |Concat(chunks[..i])|
  }

  lemma {:induction false} ConcatAppend(a: seq<seq<byte>>, b: seq<seq<byte>>)
    ensures Concat(a + b) == Concat(a) + Concat(b)
    decreases |b|
  {
    if b == [] {
      assert a + b == a;
    } else {
      var n := |b| - 1;
      assert (a + b)[..|a + b| - 1] == a + b[..n];
      ConcatAppend(a, b[..n]);
      assert Concat(a + b) == (Concat(a) + Concat(b[..n])) + b[n];
    }
  }

  lemma ConcatOne(c: seq<byte>)
    ensures Concat([c]) == c
  {
    assert [c][..0] == [];
    assert Concat([]) == [];
    assert [] + c == c;
  }

  lemma ConcatSplit(chunks: seq<seq<byte>>, i: nat)
    requires i <= |chunks|
    ensures Concat(chunks) == Concat(chunks[..i]) + Concat(chunks[i..])
    ensures Offset(chunks, i) <= |Concat(chunks)|
    ensures Concat(chunks)[..Offset(chunks, i)] == Concat(chunks[..i])
  {
    assert chunks == chunks[..i] + chunks[i..];
    ConcatAppend(chunks[..i], chunks[i..]);
  }

  lemma OffsetStep(chunks: seq<seq<byte>>, i: nat)
    requires i < |chunks|
    ensures Offset(chunks, i + 1) == Offset(chunks, i) + |chunks[i]|
  {
    assert chunks[..i + 1][..i] == chunks[..i];
  }

  /** Reading an element's size at its offset gives the element. */
  lemma ElementAt(chunks: seq<seq<byte>>, i: nat)
    requires i < |chunks|
    ensures Offset(chunks, i) + |chunks[i]| <= |Concat(chunks)|
    ensures Concat(chunks)[Offset(chunks, i)..Offset(chunks, i) + |chunks[i]|] == chunks[i]
  {
    ConcatSplit(chunks, i + 1);
    OffsetStep(chunks, i);
    assert chunks[..i + 1][..i] == chunks[..i];
    var head := Concat(chunks[..i + 1]);
    assert head == Concat(chunks[..i]) + chunks[i];
    assert Concat(chunks)[Offset(chunks, i)..Offset(chunks, i + 1)] == head[Offset(chunks, i)..];
  }

  /** The same element read through a file that starts at element `start`. */
  lemma ElementInTail(chunks: seq<seq<byte>>, start: nat, i: nat)
    requires start <= i < |chunks|
    ensures Offset(chunks, start) <= Offset(chunks, i)
    ensures Offset(chunks, i) - Offset(chunks, start) + |chunks[i]| <= |Concat(chunks[start..])|
    ensures var o := Offset(chunks, i) - Offset(chunks, start);
            Concat(chunks[start..])[o..o + |chunks[i]|] == chunks[i]
  {
    var tail := chunks[start..];
    ElementAt(tail, i - start);
    assert chunks[..i] == chunks[..start] + tail[..i - start];
    ConcatAppend(chunks[..start], tail[..i - start]);
    assert tail[i - start] == chunks[i];
  }

  ghost predicate AllOfSize(chunks: seq<seq<byte>>, size: nat) {
    forall i :: 0 <= i < |chunks| ==> |chunks[i]| == size
  }

  lemma {:induction false} FixedOffset(chunks: seq<seq<byte>>, size: nat, i: nat)
    requires AllOfSize(chunks, size) && i <= |chunks|
    ensures Offset(chunks, i) == i * size
    decreases i
  {
    if i > 0 {
      FixedOffset(chunks, size, i - 1);
      OffsetStep(chunks, i - 1);
      assert i * size == (i - 1) * size + size;
    }
  }

  lemma FixedLength(chunks: seq<seq<byte>>, size: nat)
    requires AllOfSize(chunks, size) && size > 0
    ensures |Concat(chunks)| == |chunks| * size
    ensures |Concat(chunks)| / size == |chunks|
  {
    FixedOffset(chunks, size, |chunks|);
    assert chunks[..|chunks|] == chunks;
    DivExact(|chunks|, size);
  }

  lemma {:induction false} DivExact(n: nat, d: nat)
    requires d > 0
    ensures n * d / d == n
  {
    if n > 0 {
      DivExact(n - 1, d);
      assert n * d == (n - 1) * d + d;
      assert ((n - 1) * d + d) / d == (n - 1) * d / d + 1;
    }
  }

  function ToSet(v: seq<nat>): set<nat> {
    set i | i in v
  }

  /** The elements of `s` whose index is not in `drop`, as a rewrite of the file keeps them. */
  function Without<T>(s: seq<T>, drop: set<nat>): seq<T> {
    if s == [] then []
    else Without(s[..|s| - 1], drop) + if |s| - 1 in drop then [] else [s[|s| - 1]]
  }

  lemma WithoutStep<T>(s: seq<T>, drop: set<nat>, i: nat)
    requires i < |s|
    ensures Without(s[..i + 1], drop) == Without(s[..i], drop) + if i in drop then [] else [s[i]]
  {
    assert s[..i + 1][..i] == s[..i];
  }

  /** While a file is streamed, the indices still to be dropped are those from the current one on. */
  ghost predicate Cursor(all: seq<nat>, left: seq<nat>, current: nat) {
    && |left| <= |all| && left == all[|all| - |left|..]
    && (forall i :: 0 <= i < |all| - |left| ==> all[i] < current)
    && (forall i :: 0 <= i < |left| ==> left[i] >= current)
  }

  lemma CursorStart(all: seq<nat>)
    ensures Cursor(all, all, 0)
  {
  }

  lemma WithoutConcat(chunks: seq<seq<byte>>, drop: set<nat>, i: nat)
    requires i < |chunks|
    ensures Concat(Without(chunks[..i + 1], drop)) ==
            Concat(Without(chunks[..i], drop)) + if i in drop then [] else chunks[i]
  {
    WithoutStep(chunks, drop, i);
    if i !in drop {
      ConcatAppend(Without(chunks[..i], drop), [chunks[i]]);
      ConcatOne(chunks[i]);
    } else {
      assert Without(chunks[..i], drop) + [] == Without(chunks[..i], drop);
    }
  }

  lemma CursorStep(all: seq<nat>, left: seq<nat>, current: nat)
    requires Increasing(all) && Cursor(all, left, current)
    ensures current in all <==> current in left
    ensures current in left ==> Cursor(all, left[1..], current + 1)
    ensures current !in left ==> Cursor(all, left, current + 1)
  {
    var n := |all| - |left|;
    assert forall i :: 0 <= i < |left| ==> left[i] == all[n + i];
    if current in left {
      assert left[0] == current;
      assert left[1..] == all[n + 1..];
    }
  }

  lemma OffsetPrefix(chunks: seq<seq<byte>>, n: nat, i: nat)
    requires i <= n <= |chunks|
    ensures Offset(chunks[..n], i) == Offset(chunks, i)
  {
    assert chunks[..n][..i] == chunks[..i];
  }
}
