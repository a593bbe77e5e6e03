/** The size file: for each element of a variable-size file, its offset and size in ten bytes. */
module SizeIndex {
  import opened Chunks
  import opened Numerals
  import opened Options

  datatype SizeEntry = SizeEntry(offset: nat, size: nat)

  const ENTRY_LEN: nat := 8 + 2
  const MAX_SIZE := 0x1_0000
  const MAX_OFFSET := 0x1_0000_0000_0000_0000

  /** The low `len` bytes of `n`, most significant first; anything above is cut off. */
  function ToBytes(n: nat, len: nat): (b: seq<byte>)
    ensures |b| == len
  {
    if len == 0 then [] else ToBytes(n / 256, len - 1) + [n % 256]
  }

  lemma {:induction false} BytesRoundTrip(n: nat, len: nat)
    requires n < Power(256, len)
    ensures Value(ToBytes(n, len), 256) == n
    decreases len
  {
    if len > 0 {
      BytesRoundTrip(n / 256, len - 1);
      assert ToBytes(n, len)[..len - 1] == ToBytes(n / 256, len - 1);
    }
  }

  function EncodeEntry(e: SizeEntry): (b: seq<byte>)
    ensures |b| == ENTRY_LEN
  {
    ToBytes(e.offset, 8) + ToBytes(e.size, 2)
  }

  function DecodeEntry(b: seq<byte>): Option<SizeEntry> {
    if |b| < ENTRY_LEN then None
    else Some(SizeEntry(Value(b[..8], 256), Value(b[8..10], 256)))
  }

  lemma EntryRoundTrip(e: SizeEntry)
    requires e.offset < MAX_OFFSET && e.size < MAX_SIZE
    ensures DecodeEntry(EncodeEntry(e)) == Some(e)
  {
    assert Power(256, 8) == MAX_OFFSET && Power(256, 2) == MAX_SIZE by {
      assert Power(256, 2) == 256 * Power(256, 1) && Power(256, 1) == 256 * Power(256, 0);
      assert Power(256, 4) == 256 * Power(256, 3) && Power(256, 3) == 256 * Power(256, 2);
      assert Power(256, 6) == 256 * Power(256, 5) && Power(256, 5) == 256 * Power(256, 4);
      assert Power(256, 8) == 256 * Power(256, 7) && Power(256, 7) == 256 * Power(256, 6);
    }
    BytesRoundTrip(e.offset, 8);
    BytesRoundTrip(e.size, 2);
    var b := EncodeEntry(e);
    assert b[..8] == ToBytes(e.offset, 8) && b[8..10] == ToBytes(e.size, 2);
  }

  /** The offset and size of element `i`. */
  function EntryOf(chunks: seq<seq<byte>>, i: nat): SizeEntry
    requires i < |chunks|
  {
    SizeEntry(Offset(chunks, i), |chunks[i]|)
  }

  /** The size file of a sequence of elements: the prefix sums of their sizes, and the sizes. */
  ghost predicate Indexes(index: seq<seq<byte>>, chunks: seq<seq<byte>>) {
    && |index| == |chunks|
    && forall i :: 0 <= i < |chunks| ==> index[i] == EncodeEntry(EntryOf(chunks, i))
  }

  ghost function IndexOf(chunks: seq<seq<byte>>): (index: seq<seq<byte>>)
    ensures Indexes(index, chunks)
  {
    seq(|chunks|, i requires 0 <= i < |chunks| => EncodeEntry(EntryOf(chunks, i)))
  }

  lemma IndexIs(index: seq<seq<byte>>, chunks: seq<seq<byte>>)
    requires Indexes(index, chunks)
    ensures index == IndexOf(chunks)
  {
    hide EncodeEntry;
  }

  lemma IndexEntries(chunks: seq<seq<byte>>)
    ensures |IndexOf(chunks)| == |chunks| && AllOfSize(IndexOf(chunks), ENTRY_LEN)
  {
  }

  /** The sizes of all whole entries of a size file. */
  ghost function SumOfSizes(bytes: seq<byte>): nat {
    if |bytes| < ENTRY_LEN then 0 else Value(bytes[8..10], 256) + SumOfSizes(bytes[ENTRY_LEN..])
  }

  method SumSizes(bytes: seq<byte>) returns (sum: nat)
    ensures sum == SumOfSizes(bytes)
  {
    sum := 0;
    var rest := bytes;
    for pos := 0 to |bytes| / ENTRY_LEN
      invariant |rest| == |bytes| - pos * ENTRY_LEN
      invariant sum + SumOfSizes(rest) == SumOfSizes(bytes)
    {
      var entry := DecodeEntry(rest).value;
      sum := sum + entry.size;
      rest := rest[ENTRY_LEN..];
    }
  }

  ghost predicate Fits(chunks: seq<seq<byte>>) {
    && |Concat(chunks)| < MAX_OFFSET
    && forall i :: 0 <= i < |chunks| ==> |chunks[i]| < MAX_SIZE
  }

  lemma IndexReads(index: seq<seq<byte>>, chunks: seq<seq<byte>>, i: nat)
    requires Indexes(index, chunks) && Fits(chunks) && i < |chunks|
    ensures DecodeEntry(index[i]) == Some(EntryOf(chunks, i))
  {
    ElementAt(chunks, i);
    EntryRoundTrip(EntryOf(chunks, i));
  }

  lemma IndexPrefix(index: seq<seq<byte>>, chunks: seq<seq<byte>>, n: nat)
    requires Indexes(index, chunks) && n <= |chunks|
    ensures Indexes(index[..n], chunks[..n])
  {
    forall i | 0 <= i < n ensures EntryOf(chunks[..n], i) == EntryOf(chunks, i) {
      OffsetPrefix(chunks, n, i);
    }
  }

  lemma IndexAppend(index: seq<seq<byte>>, chunks: seq<seq<byte>>, c: seq<byte>)
    requires Indexes(index, chunks)
    ensures Indexes(index + [EncodeEntry(SizeEntry(|Concat(chunks)|, |c|))], chunks + [c])
  {
    var all := chunks + [c];
    assert all[..|chunks|] == chunks;
    forall i | 0 <= i < |chunks| ensures EntryOf(all, i) == EntryOf(chunks, i) {
      OffsetPrefix(all, |chunks|, i);
    }
  }

  lemma FitsPrefix(chunks: seq<seq<byte>>, n: nat)
    requires Fits(chunks) && n <= |chunks|
    ensures Fits(chunks[..n])
  {
    ConcatSplit(chunks, n);
  }

  lemma FitsAppend(chunks: seq<seq<byte>>, c: seq<byte>)
    requires Fits(chunks) && |c| < MAX_SIZE && |Concat(chunks)| + |c| < MAX_OFFSET
    ensures Fits(chunks + [c])
  {
    ConcatAppend(chunks, [c]);
    ConcatOne(c);
  }

  lemma {:induction false} FitsWithout(chunks: seq<seq<byte>>, drop: set<nat>)
    requires Fits(chunks)
    ensures Fits(Without(chunks, drop))
    ensures |Concat(Without(chunks, drop))| <= |Concat(chunks)|
    decreases |chunks|
  {
    if chunks != [] {
      var n := |chunks| - 1;
      FitsPrefix(chunks, n);
      FitsWithout(chunks[..n], drop);
      assert chunks[..n + 1] == chunks;
      WithoutConcat(chunks, drop, n);
      WithoutStep(chunks, drop, n);
    }
  }

  lemma {:induction false} SumAppend(a: seq<byte>, b: seq<byte>)
    requires |a| % ENTRY_LEN == 0
    ensures SumOfSizes(a + b) == SumOfSizes(a) + SumOfSizes(b)
    decreases |a|
  {
    hide Value;
    if |a| < ENTRY_LEN {
      assert a == [] && a + b == b;
    } else {
      SumAppend(a[ENTRY_LEN..], b);
      assert (a + b)[ENTRY_LEN..] == a[ENTRY_LEN..] + b && (a + b)[8..10] == a[8..10];
    }
  }

  /** A right size file adds up to the length of the data, so it is never built anew. */
  lemma {:induction false} SumIsLength(chunks: seq<seq<byte>>)
    requires Fits(chunks)
    ensures SumOfSizes(Concat(IndexOf(chunks))) == |Concat(chunks)|
    decreases |chunks|
  {
    hide Fits, EncodeEntry, IndexOf, Value;
    if chunks == [] {
      assert IndexOf(chunks) == [];
    } else {
      var n := |chunks| - 1;
      var head, last := chunks[..n], EncodeEntry(EntryOf(chunks, n));
      FitsPrefix(chunks, n);
      SumIsLength(head);
      IndexPrefix(IndexOf(chunks), chunks, n);
      IndexIs(IndexOf(chunks)[..n], head);
      assert IndexOf(chunks) == IndexOf(head) + [last];
      IndexEntries(head);
      FixedLength(IndexOf(head), ENTRY_LEN);
      SumAppend(Concat(IndexOf(head)), last);
      LastSize(chunks, n);
    }
  }

  lemma LastSize(chunks: seq<seq<byte>>, i: nat)
    requires Fits(chunks) && i < |chunks|
    ensures SumOfSizes(EncodeEntry(EntryOf(chunks, i))) == |chunks[i]|
  {
    hide EncodeEntry, Value;
    var b := EncodeEntry(EntryOf(chunks, i));
    ElementAt(chunks, i);
    EntryRoundTrip(EntryOf(chunks, i));
    assert SumOfSizes(b[ENTRY_LEN..]) == 0;
  }

  /** But it need not be right to add up: the sizes of two elements may have been swapped. */
  lemma SwappedSizesAddUp()
    ensures var chunks: seq<seq<byte>>, other: seq<seq<byte>> := [[1], [2, 2]], [[1, 1], [2]];
            && Fits(chunks) && SumOfSizes(Concat(IndexOf(other))) == |Concat(chunks)|
            && Concat(IndexOf(other)) != Concat(IndexOf(chunks))
  {
    var chunks: seq<seq<byte>>, other: seq<seq<byte>> := [[1], [2, 2]], [[1, 1], [2]];
    TwoChunks([1], [2, 2]);
    TwoChunks([1, 1], [2]);
    SumIsLength(other);
    var a, b := Concat(IndexOf(chunks)), Concat(IndexOf(other));
    TwoEntries(chunks);
    TwoEntries(other);
    assert a[9] == 1 && b[9] == 2;
  }

  lemma TwoChunks(c: seq<byte>, d: seq<byte>)
    ensures Concat([c, d]) == c + d
  {
    assert [c, d] == [c] + [d];
    ConcatAppend([c], [d]);
    ConcatOne(c);
    ConcatOne(d);
  }

  lemma TwoEntries(chunks: seq<seq<byte>>)
    requires |chunks| == 2 && |chunks[0]| < 256
    ensures |Concat(IndexOf(chunks))| > 9 && Concat(IndexOf(chunks))[9] == |chunks[0]|
  {
    hide EncodeEntry;
    var first := EncodeEntry(EntryOf(chunks, 0));
    assert IndexOf(chunks) == [first, IndexOf(chunks)[1]];
    TwoChunks(first, IndexOf(chunks)[1]);
    LowByte(EntryOf(chunks, 0));
  }

  lemma LowByte(e: SizeEntry)
    requires e.size < 256
    ensures EncodeEntry(e)[9] == e.size
  {
  }
}
