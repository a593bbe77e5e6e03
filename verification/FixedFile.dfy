/** An append-only file whose elements all have the same size. */
module FixedFiles {
  import opened Binary
  import opened Chunks
  import opened Collections

  class FixedFile {
    const elmtSize: nat
    /** The bytes on disk, which the memory map shows. */
    var disk: seq<byte>
    var buffer: seq<byte>
    var bufferStartPos: nat
    var bufferStartPosBak: nat
    /** The elements as of the last flush. */
    ghost var committed: seq<seq<byte>>
    /** The elements a reader sees. */
    ghost var working: seq<seq<byte>>

    ghost predicate Valid()
      reads this
    {
      && elmtSize > 0
      && AllOfSize(committed, elmtSize) && AllOfSize(working, elmtSize)
      && disk == Concat(committed)
      && bufferStartPos <= |committed| && bufferStartPos <= |working|
      && working[..bufferStartPos] == committed[..bufferStartPos]
      && buffer == Concat(working[bufferStartPos..])
      && (bufferStartPosBak == 0 ==> bufferStartPos == |committed|)
      && (bufferStartPosBak > 0 ==> bufferStartPosBak == |committed|)
    }

    /** Nothing waits to be flushed. */
    ghost predicate Synced()
      reads this
    {
      bufferStartPosBak == 0 && buffer == []
    }

    constructor Empty(size: nat)
      requires size > 0
      ensures Valid() && Synced() && elmtSize == size
      ensures committed == working == []
    {
      elmtSize := size;
      disk, buffer, bufferStartPos, bufferStartPosBak := [], [], 0, 0;
      committed, working := [], [];
    }

    /** Opens the bytes on disk, which hold `elements` if they are whole. */
    constructor Open(size: nat, bytes: seq<byte>, ghost elements: seq<seq<byte>>)
      requires size > 0
      ensures elmtSize == size && disk == bytes && committed == working == elements && Synced()
      ensures bufferStartPos == |bytes| / size
      ensures Valid() <==> bytes == Concat(elements) && AllOfSize(elements, size)
    {
      elmtSize := size;
      disk, buffer, bufferStartPos, bufferStartPosBak := bytes, [], if |bytes| == 0 then 0 else |bytes| / size, 0;
      committed, working := elements, elements;
      new;
      if AllOfSize(elements, size) { FixedLength(elements, size); }
    }

    lemma EmptyBuffer()
      requires Valid() && buffer == []
      ensures |working| == bufferStartPos
    {
      FixedLength(working[bufferStartPos..], elmtSize);
      var n := |working| - bufferStartPos;
      if n > 0 { MulAtLeast(elmtSize, n); }
    }

    function SizeInElmts(): nat
      requires elmtSize > 0
      reads this
    {
      |disk| / elmtSize
    }

    lemma ElementSize(i: nat)
      requires Valid() && i < |working|
      ensures |working[i]| == elmtSize
    {
    }

    lemma DiskSize()
      requires Valid()
      ensures SizeInElmts() == |committed|
    {
      FixedLength(committed, elmtSize);
    }

    method SizeUnsyncInElmts() returns (size: nat)
      requires Valid()
      ensures size == |working|
    {
      FixedLength(working[bufferStartPos..], elmtSize);
      size := bufferStartPos + |buffer| / elmtSize;
    }

    method Append(bytes: seq<byte>)
      requires Valid() && |bytes| == elmtSize
      modifies this`buffer, this`working
      ensures Valid()
      ensures working == old(working) + [bytes]
    {
      ghost var tail := working[bufferStartPos..];
      ConcatAppend(tail, [bytes]);
      ConcatOne(bytes);
      buffer := buffer + bytes;
      working := working + [bytes];
      assert working[bufferStartPos..] == tail + [bytes];
    }

    method Rewind(pos: nat)
      requires Valid() && buffer == [] && pos <= |committed|
      modifies this`bufferStartPos, this`bufferStartPosBak, this`working
      ensures Valid() && buffer == []
      ensures working == committed[..pos]
      ensures bufferStartPos == pos
      ensures bufferStartPosBak == if old(bufferStartPosBak) == 0 then old(bufferStartPos) else old(bufferStartPosBak)
    {
      if bufferStartPosBak == 0 {
        bufferStartPosBak := bufferStartPos;
      }
      bufferStartPos := pos;
      working := committed[..pos];
      assert working[pos..] == [];
    }

    method Flush()
      requires Valid()
      modifies this`disk, this`buffer, this`bufferStartPos, this`bufferStartPosBak, this`committed
      ensures Valid() && Synced()
      ensures committed == working
      ensures bufferStartPos == |committed|
    {
      ghost var kept := working[..bufferStartPos];
      if bufferStartPosBak > 0 {
        ConcatSplit(committed, bufferStartPos);
        FixedOffset(committed, elmtSize, bufferStartPos);
        if bufferStartPos == 0 {
          disk := [];
        } else {
          var offset := (bufferStartPos - 1) * elmtSize;
          assert offset + elmtSize == bufferStartPos * elmtSize;
          disk := disk[..offset + elmtSize];
        }
        assert disk == Concat(kept);
      } else {
        assert committed == kept;
      }
      bufferStartPosBak := 0;
      ConcatSplit(working, bufferStartPos);
      disk := disk + buffer;
      committed := working;
      buffer := [];
      FixedLength(committed, elmtSize);
      bufferStartPos := SizeInElmts();
      assert working[bufferStartPos..] == [];
    }

    method Discard()
      requires Valid()
      modifies this`buffer, this`bufferStartPos, this`bufferStartPosBak, this`working
      ensures Valid() && Synced()
      ensures working == committed
      ensures bufferStartPos == |committed|
    {
      if bufferStartPosBak > 0 {
        bufferStartPos := bufferStartPosBak;
        bufferStartPosBak := 0;
      }
      buffer := [];
      working := committed;
      assert working[bufferStartPos..] == [];
    }

    /** The element at `pos`, from the file or from the buffer; empty beyond the end. */
    method Read(pos: nat) returns (bytes: seq<byte>)
      requires Valid()
      ensures bytes == if pos < |working| then working[pos] else []
    {
      var size := SizeUnsyncInElmts();
      if pos >= size {
        return [];
      }
      var offset := pos * elmtSize;
      FixedOffset(working, elmtSize, pos);
      FixedOffset(working, elmtSize, bufferStartPos);
      if pos < bufferStartPos {
        FixedOffset(committed, elmtSize, pos);
        ElementAt(committed, pos);
        assert committed[..bufferStartPos][pos] == working[..bufferStartPos][pos];
        bytes := if |disk| < offset + elmtSize then [] else disk[offset..offset + elmtSize];
      } else {
        ElementInTail(working, bufferStartPos, pos);
        var inBuffer := offset - bufferStartPos * elmtSize;
        bytes := if |buffer| < inBuffer + elmtSize then [] else buffer[inBuffer..inBuffer + elmtSize];
      }
    }

    /** Puts another file in place of this one and opens it. */
    method Replace(with: seq<byte>, ghost elements: seq<seq<byte>>)
      requires elmtSize > 0 && Synced() && with == Concat(elements) && AllOfSize(elements, elmtSize)
      modifies this`disk, this`bufferStartPos, this`committed, this`working
      ensures Valid() && Synced()
      ensures committed == working == elements
      ensures bufferStartPos == |committed|
    {
      disk := with;
      committed, working := elements, elements;
      FixedLength(committed, elmtSize);
      bufferStartPos := if |disk| == 0 then 0 else SizeInElmts();
      assert working[|committed|..] == [];
    }

    /** Rewrites the file without the elements at the given ascending indices. */
    method SavePrune(prunePos: seq<nat>)
      requires Valid() && Synced() && Increasing(prunePos)
      modifies this`disk, this`bufferStartPos, this`committed, this`working
      ensures Valid() && Synced()
      ensures committed == working == Without(old(working), ToSet(prunePos))
    {
      ghost var drop := ToSet(prunePos);
      EmptyBuffer();
      assert working == committed;
      var tmp := StreamWithout(disk, elmtSize, prunePos, committed);
      WithoutSizes(committed, drop, elmtSize);
      Replace(tmp, Without(committed, drop));
    }
  }

  /** Reads elements off a stream until none is left and writes those not dropped. */
  method StreamWithout(disk: seq<byte>, elmtSize: nat, prunePos: seq<nat>, ghost chunks: seq<seq<byte>>)
    returns (out: seq<byte>)
    requires elmtSize > 0 && AllOfSize(chunks, elmtSize) && disk == Concat(chunks)
    requires Increasing(prunePos)
    ensures out == Concat(Without(chunks, ToSet(prunePos)))
  {
    hide Increasing, Cursor;
    ghost var drop := ToSet(prunePos);
    out := [];
    var rest, currentPos, prune := disk, 0, prunePos;
    assert chunks[0..] == chunks && chunks[..0] == [];
    CursorStart(prunePos);
    while |rest| >= elmtSize
      invariant currentPos <= |chunks|
      invariant rest == Concat(chunks[currentPos..])
      invariant out == Concat(Without(chunks[..currentPos], drop))
      invariant Cursor(prunePos, prune, currentPos)
    {
      FirstElement(chunks[currentPos..], elmtSize);
      CursorStep(prunePos, prune, currentPos);
      WithoutConcat(chunks, drop, currentPos);
      var elmt := rest[..elmtSize];
      if currentPos in prune {
        prune := prune[1..];
      } else {
        out := out + elmt;
      }
      rest := rest[elmtSize..];
      assert chunks[currentPos..][1..] == chunks[currentPos + 1..];
      currentPos := currentPos + 1;
    }
    NoElementLeft(chunks[currentPos..], elmtSize);
    assert chunks[..currentPos] == chunks;
  }

  /** A file at least one element long starts with an element. */
  lemma FirstElement(chunks: seq<seq<byte>>, size: nat)
    requires AllOfSize(chunks, size) && size > 0 && |Concat(chunks)| >= size
    ensures chunks != []
    ensures Concat(chunks)[..size] == chunks[0]
    ensures Concat(chunks)[size..] == Concat(chunks[1..])
  {
    if chunks != [] {
      assert chunks == [chunks[0]] + chunks[1..];
      ConcatAppend([chunks[0]], chunks[1..]);
      ConcatOne(chunks[0]);
    }
  }

  lemma NoElementLeft(chunks: seq<seq<byte>>, size: nat)
    requires AllOfSize(chunks, size) && size > 0 && |Concat(chunks)| < size
    ensures chunks == []
  {
    FixedLength(chunks, size);
    if chunks != [] { MulAtLeast(size, |chunks|); }
  }

  lemma {:induction false} WithoutSizes(chunks: seq<seq<byte>>, drop: set<nat>, size: nat)
    requires AllOfSize(chunks, size)
    ensures AllOfSize(Without(chunks, drop), size)
    decreases |chunks|
  {
    if chunks != [] { WithoutSizes(chunks[..|chunks| - 1], drop, size); }
  }
}
