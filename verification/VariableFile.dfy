/** An append-only file with elements of different sizes, found through a size file. */
module VariableFiles {
  import opened Chunks
  import opened Collections
  import opened Options
  import opened SizeIndex
  import opened FixedFiles

  /**
   `reader` gives the length of the element at the front of a stream, or zero when there is
   none; it delimits `c` when `c` is read whole whatever follows it.
   */
  ghost predicate Delimits(reader: seq<byte> -> nat, c: seq<byte>) {
    c != [] && forall rest: seq<byte> :: reader(c + rest) == |c|
  }

  ghost predicate DelimitsAll(reader: seq<byte> -> nat, chunks: seq<seq<byte>>) {
    reader([]) == 0 && forall i :: 0 <= i < |chunks| ==> Delimits(reader, chunks[i])
  }

  lemma StreamHead(reader: seq<byte> -> nat, chunks: seq<seq<byte>>)
    requires DelimitsAll(reader, chunks)
    ensures chunks == [] ==> reader(Concat(chunks)) == 0
    ensures chunks != [] ==>
              && reader(Concat(chunks)) == |chunks[0]| <= |Concat(chunks)|
              && |chunks[0]| > 0
              && Concat(chunks)[..|chunks[0]|] == chunks[0]
              && Concat(chunks)[|chunks[0]|..] == Concat(chunks[1..])
  {
    if chunks != [] {
      assert chunks == [chunks[0]] + chunks[1..];
      ConcatAppend([chunks[0]], chunks[1..]);
      ConcatOne(chunks[0]);
      assert Delimits(reader, chunks[0]);
    }
  }

  lemma {:induction false} DelimitsWithout(reader: seq<byte> -> nat, chunks: seq<seq<byte>>, drop: set<nat>)
    requires DelimitsAll(reader, chunks)
    ensures DelimitsAll(reader, Without(chunks, drop))
    decreases |chunks|
  {
    hide Delimits;
    if chunks != [] { DelimitsWithout(reader, chunks[..|chunks| - 1], drop); }
  }

  /** Reads elements off a stream until none is left and writes those not dropped. */
  method StreamDelimitedWithout(
      disk: seq<byte>, reader: seq<byte> -> nat, prunePos: seq<nat>, ghost chunks: seq<seq<byte>>)
    returns (out: seq<byte>)
    requires DelimitsAll(reader, chunks) && disk == Concat(chunks)
    requires Increasing(prunePos)
    ensures out == Concat(Without(chunks, ToSet(prunePos)))
  {
    hide Increasing, Cursor, Delimits;
    ghost var drop := ToSet(prunePos);
    out := [];
    var rest, currentPos, prune := disk, 0, prunePos;
    assert chunks[0..] == chunks && chunks[..0] == [];
    CursorStart(prunePos);
    while reader(rest) > 0
      invariant currentPos <= |chunks|
      invariant rest == Concat(chunks[currentPos..])
      invariant out == Concat(Without(chunks[..currentPos], drop))
      invariant Cursor(prunePos, prune, currentPos)
      decreases |rest|
    {
      StreamHead(reader, chunks[currentPos..]);
      CursorStep(prunePos, prune, currentPos);
      WithoutConcat(chunks, drop, currentPos);
      var elmt := rest[..reader(rest)];
      if currentPos in prune {
        prune := prune[1..];
      } else {
        out := out + elmt;
      }
      rest := rest[reader(rest)..];
      assert chunks[currentPos..][1..] == chunks[currentPos + 1..];
      currentPos := currentPos + 1;
    }
    StreamHead(reader, chunks[currentPos..]);
    assert chunks[..currentPos] == chunks;
  }

  /** Reads the elements off a stream and writes an entry for each. */
  method StreamIndex(disk: seq<byte>, reader: seq<byte> -> nat, ghost chunks: seq<seq<byte>>)
    returns (out: seq<byte>)
    requires DelimitsAll(reader, chunks) && disk == Concat(chunks)
    ensures out == Concat(IndexOf(chunks))
  {
    hide Indexes, Delimits, IndexOf;
    out := [];
    ghost var index: seq<seq<byte>> := [];
    var rest, currentOffset := disk, 0;
    ghost var n := 0;
    assert chunks[0..] == chunks && chunks[..0] == [];
    IndexEmpty();
    while reader(rest) > 0
      invariant n <= |chunks|
      invariant rest == Concat(chunks[n..])
      invariant currentOffset == |Concat(chunks[..n])|
      invariant out == Concat(index) && Indexes(index, chunks[..n])
      decreases |rest|
    {
      StreamHead(reader, chunks[n..]);
      var size := reader(rest);
      var entry := EncodeEntry(SizeEntry(currentOffset, size));
      IndexAppend(index, chunks[..n], chunks[n]);
      ConcatAppend(index, [entry]);
      ConcatOne(entry);
      OffsetStep(chunks, n);
      assert chunks[..n + 1] == chunks[..n] + [chunks[n]];
      assert chunks[n..][1..] == chunks[n + 1..];
      out, index := out + entry, index + [entry];
      rest := rest[size..];
      currentOffset := currentOffset + size;
      n := n + 1;
    }
    StreamHead(reader, chunks[n..]);
    assert chunks[..n] == chunks;
    IndexIs(index, chunks);
  }

  lemma IndexEmpty()
    ensures Indexes([], [])
  {
  }

  class VariableFile {
    const reader: seq<byte> -> nat
    const sizeFile: FixedFile
    var disk: seq<byte>
    var buffer: seq<byte>
    var bufferStartPos: nat
    var bufferStartPosBak: nat
    ghost var committed: seq<seq<byte>>
    ghost var working: seq<seq<byte>>

    ghost predicate Valid()
      reads this, sizeFile
    {
      && sizeFile.Valid() && sizeFile.elmtSize == ENTRY_LEN
      && Fits(committed) && Fits(working)
      && DelimitsAll(reader, committed) && DelimitsAll(reader, working)
      && Indexes(sizeFile.committed, committed) && Indexes(sizeFile.working, working)
      && sizeFile.bufferStartPos == bufferStartPos && sizeFile.bufferStartPosBak == bufferStartPosBak
      && disk == Concat(committed)
      && bufferStartPos <= |committed| && bufferStartPos <= |working|
      && working[..bufferStartPos] == committed[..bufferStartPos]
      && buffer == Concat(working[bufferStartPos..])
      && (bufferStartPosBak == 0 ==> bufferStartPos == |committed|)
      && (bufferStartPosBak > 0 ==> bufferStartPosBak == |committed|)
    }

    ghost predicate Synced()
      reads this, sizeFile
    {
      bufferStartPosBak == 0 && buffer == []
    }

    constructor Empty(elementReader: seq<byte> -> nat)
      requires elementReader([]) == 0
      ensures Valid() && Synced() && fresh(sizeFile)
      ensures reader == elementReader
      ensures committed == working == []
    {
      reader := elementReader;
      sizeFile := new FixedFile.Empty(ENTRY_LEN);
      disk, buffer, bufferStartPos, bufferStartPosBak := [], [], 0, 0;
      committed, working := [], [];
    }

    /**
     Opens the bytes on disk, which hold `chunks`. A size file whose sizes do not add up to the length
     of the data is built anew, so the file is whole unless they do and it is not the right one.
     */
    constructor Open(elementReader: seq<byte> -> nat, bytes: seq<byte>, sizeBytes: seq<byte>,
        ghost chunks: seq<seq<byte>>)
      requires bytes == Concat(chunks) && DelimitsAll(elementReader, chunks) && Fits(chunks)
      ensures reader == elementReader && disk == bytes && committed == working == chunks && Synced() && fresh(sizeFile)
      ensures Valid() <==> SumOfSizes(sizeBytes) != |bytes| || sizeBytes == Concat(IndexOf(chunks))
    {
      hide Delimits, Fits, Indexes, IndexOf;
      reader := elementReader;
      var sizes := new FixedFile.Open(ENTRY_LEN, sizeBytes, IndexOf(chunks));
      var sum := SumSizes(sizeBytes);
      if sum != |bytes| {
        var rebuilt := StreamIndex(bytes, elementReader, chunks);
        sizes := new FixedFile.Open(ENTRY_LEN, rebuilt, IndexOf(chunks));
      }
      sizeFile := sizes;
      disk, buffer := bytes, [];
      bufferStartPos, bufferStartPosBak := sizes.SizeInElmts(), 0;
      committed, working := chunks, chunks;
      new;
      IndexEntries(chunks);
      FixedLength(IndexOf(chunks), ENTRY_LEN);
    }

    lemma EmptyBuffer()
      requires Valid() && buffer == []
      ensures |working| == bufferStartPos && sizeFile.buffer == []
      ensures bufferStartPosBak == 0 ==> working == committed && sizeFile.working == sizeFile.committed
    {
      StreamHead(reader, working[bufferStartPos..]);
    }

    lemma ElementNotEmpty(i: nat)
      requires Valid() && i < |working|
      ensures working[i] != []
    {
      assert Delimits(reader, working[i]);
    }

    method SizeUnsyncInElmts() returns (size: nat)
      requires Valid()
      ensures size == |working|
    {
      size := sizeFile.SizeUnsyncInElmts();
    }

    function SizeInElmts(): nat
      requires sizeFile.elmtSize > 0
      reads this, sizeFile
    {
      sizeFile.SizeInElmts()
    }

    /** The entry of an element; the size file never lacks one for an element that is there. */
    method OffsetAndSize(pos: nat) returns (entry: Option<SizeEntry>)
      requires Valid()
      ensures pos < |working| ==> entry == Some(EntryOf(working, pos))
      ensures pos >= |working| ==> entry == None
    {
      var bytes := sizeFile.Read(pos);
      if pos < |working| { IndexReads(sizeFile.working, working, pos); }
      entry := DecodeEntry(bytes);
    }

    method Append(bytes: seq<byte>) returns (ok: bool)
      requires Valid() && Delimits(reader, bytes)
      requires |bytes| < MAX_SIZE && |Concat(working)| + |bytes| < MAX_OFFSET
      modifies this`buffer, this`working, sizeFile`buffer, sizeFile`working
      ensures ok && Valid()
      ensures working == old(working) + [bytes]
    {
      hide Delimits, Fits, Indexes, DelimitsAll, AllOfSize, FixedFile.Valid, FixedFile.Synced, Concat;
      ghost var before, index := working, sizeFile.working;
      var nextPos := sizeFile.SizeUnsyncInElmts();
      IndexSize(index, before);
      var offset := 0;
      if nextPos == 0 {
        NoTail(before);
      } else {
        var prev := OffsetAndSize(nextPos - 1);
        LastEntryEnds(before);
        if prev.None? {
          return false;
        }
        offset := prev.value.offset + prev.value.size;
      }
      sizeFile.Append(EncodeEntry(SizeEntry(offset, |bytes|)));
      IndexAppend(index, before, bytes);
      FitsAppend(before, bytes);
      DelimitsAppend(reader, before, bytes);
      TailAppend(before, bytes, bufferStartPos);
      buffer := buffer + bytes;
      working := working + [bytes];
      ok := true;
    }

    method Rewind(pos: nat)
      requires Valid() && buffer == [] && pos <= |committed|
      modifies this`bufferStartPos, this`bufferStartPosBak, this`working
      modifies sizeFile`bufferStartPos, sizeFile`bufferStartPosBak, sizeFile`working
      ensures Valid() && buffer == []
      ensures working == committed[..pos]
    {
      hide Delimits, Fits, FixedFile.Valid;
      EmptyBuffer();
      IndexSize(sizeFile.committed, committed);
      IndexPrefix(sizeFile.committed, committed, pos);
      FitsPrefix(committed, pos);
      sizeFile.Rewind(pos);
      if bufferStartPosBak == 0 {
        bufferStartPosBak := bufferStartPos;
      }
      bufferStartPos := pos;
      working := committed[..pos];
      assert working[pos..] == [];
    }

    method Discard()
      requires Valid()
      modifies this`buffer, this`bufferStartPos, this`bufferStartPosBak, this`working
      modifies sizeFile`buffer, sizeFile`bufferStartPos, sizeFile`bufferStartPosBak, sizeFile`working
      ensures Valid() && Synced()
      ensures working == committed
    {
      hide Delimits, Fits, DelimitsAll, FixedFile.Valid, Indexes;
      if bufferStartPosBak > 0 {
        bufferStartPos := bufferStartPosBak;
        bufferStartPosBak := 0;
      }
      IndexSize(sizeFile.committed, committed);
      sizeFile.Discard();
      buffer := [];
      working := committed;
      assert working[bufferStartPos..] == [];
    }

    method Flush() returns (ok: bool)
      requires Valid()
      modifies this`disk, this`buffer, this`bufferStartPos, this`bufferStartPosBak, this`committed
      modifies sizeFile`disk, sizeFile`buffer, sizeFile`bufferStartPos, sizeFile`bufferStartPosBak, sizeFile`committed
      ensures ok && Valid() && Synced()
      ensures committed == working
    {
      hide Delimits, Fits, DelimitsAll, Indexes, FixedFile.Valid, Concat;
      IndexSize(sizeFile.working, working);
      ConcatSplit(working, bufferStartPos);
      ConcatSplit(committed, bufferStartPos);
      sizeFile.Flush();
      if bufferStartPosBak > 0 {
        if bufferStartPos == 0 {
          disk := [];
        } else {
          ghost var i := bufferStartPos - 1;
          var bytes := sizeFile.Read(bufferStartPos - 1);
          IndexReads(sizeFile.working, working, i);
          var entry := DecodeEntry(bytes);
          if entry.None? {
            return false;
          }
          OffsetStep(working, i);
          disk := disk[..entry.value.offset + entry.value.size];
        }
        assert disk == Concat(working[..bufferStartPos]);
      } else {
        assert committed[..bufferStartPos] == committed;
      }
      bufferStartPosBak := 0;
      disk := disk + buffer;
      committed := working;
      buffer := [];
      sizeFile.DiskSize();
      bufferStartPos := SizeInElmts();
      NoTail(working);
      ok := true;
    }

    /** The element at `pos`, from the file or from the buffer; empty beyond the end. */
    method Read(pos: nat) returns (bytes: seq<byte>)
      requires Valid()
      ensures bytes == if pos < |working| then working[pos] else []
    {
      hide Delimits, Fits, DelimitsAll, Indexes, FixedFile.Valid;
      var size := SizeUnsyncInElmts();
      if pos >= size {
        return [];
      }
      var entry := OffsetAndSize(pos);
      if entry.None? {
        return [];
      }
      var offset, length := entry.value.offset, entry.value.size;
      if pos < bufferStartPos {
        ElementAt(committed, pos);
        assert committed[..bufferStartPos][pos] == working[..bufferStartPos][pos];
        OffsetPrefix(committed, bufferStartPos, pos);
        OffsetPrefix(working, bufferStartPos, pos);
        bytes := if |disk| < offset + length then [] else disk[offset..offset + length];
      } else {
        ElementInTail(working, bufferStartPos, pos);
        var bufferEntry := OffsetAndSize(bufferStartPos);
        if bufferEntry.None? {
          return [];
        }
        var inBuffer := if offset < bufferEntry.value.offset then 0 else offset - bufferEntry.value.offset;
        bytes := if |buffer| < inBuffer + length then [] else buffer[inBuffer..inBuffer + length];
      }
    }

    /** Rewrites the file without the elements at the given ascending indices, then its size file. */
    method SavePrune(prunePos: seq<nat>)
      requires Valid() && Synced() && Increasing(prunePos)
      modifies this`disk, this`bufferStartPos, this`committed, this`working
      modifies sizeFile`disk, sizeFile`bufferStartPos, sizeFile`committed, sizeFile`working
      ensures Valid() && Synced()
      ensures committed == working == Without(old(working), ToSet(prunePos))
    {
      hide Delimits, Fits, Increasing, DelimitsAll, Indexes, AllOfSize, Without, FixedFile.Valid, Concat;
      ghost var drop := ToSet(prunePos);
      EmptyBuffer();
      disk := StreamDelimitedWithout(disk, reader, prunePos, committed);
      DelimitsWithout(reader, committed, drop);
      FitsWithout(committed, drop);
      committed := Without(committed, drop);
      working := committed;
      var sizes := StreamIndex(disk, reader, committed);
      ghost var index := IndexOf(committed);
      IndexSize(index, committed);
      sizeFile.Replace(sizes, index);
      sizeFile.DiskSize();
      StreamHead(reader, committed);
      bufferStartPos := if |disk| == 0 then 0 else SizeInElmts();
      NoTail(working);
    }
  }

  lemma IndexSize(index: seq<seq<byte>>, chunks: seq<seq<byte>>)
    requires Indexes(index, chunks)
    ensures |index| == |chunks| && AllOfSize(index, ENTRY_LEN)
  {
  }

  lemma LastEntryEnds(chunks: seq<seq<byte>>)
    requires chunks != []
    ensures Offset(chunks, |chunks| - 1) + |chunks[|chunks| - 1]| == |Concat(chunks)|
  {
  }

  lemma DelimitsAppend(reader: seq<byte> -> nat, chunks: seq<seq<byte>>, c: seq<byte>)
    requires DelimitsAll(reader, chunks) && Delimits(reader, c)
    ensures DelimitsAll(reader, chunks + [c])
  {
    hide Delimits;
  }

  lemma NoTail(chunks: seq<seq<byte>>)
    ensures Concat(chunks[|chunks|..]) == []
  {
  }

  lemma TailAppend(chunks: seq<seq<byte>>, c: seq<byte>, start: nat)
    requires start <= |chunks|
    ensures Concat((chunks + [c])[start..]) == Concat(chunks[start..]) + c
  {
    assert (chunks + [c])[start..] == chunks[start..] + [c];
    ConcatAppend(chunks[start..], [c]);
    ConcatOne(c);
  }
}
