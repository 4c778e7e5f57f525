/** Sparse copying of disk images: blocks of zeros are never written, yet a successful copy must
    equal a plain one (internal/applevmhelper/runtime_darwin_arm64.go). */
module SparseCopy {
  import opened Wrappers
  import opened Bytes

  const BLOCK := 4096

  /** A write may fail after any part of it has reached the file. */
  datatype WriteOutcome = Full | Partial(written: nat, error: bool)

  datatype ReadError = NoError | Eof | OtherError

  /** A read returns any number of the bytes asked for, with or without an error. */
  datatype ReadOutcome = ReadOutcome(n: nat, error: ReadError)

  datatype Extent = Extent(start: int, length: int, stored: bool, zero: bool)

  // ---------- bytes of a file after a sparse write ----------

  /** The file differs only inside [lo, hi). */
  ghost predicate SameOutside(before: seq<byte>, after: seq<byte>, lo: int, hi: int)
  {
    |after| == |before| && forall i :: 0 <= i < |before| && !(lo <= i < hi) ==> after[i] == before[i]
  }

  /** Byte `i` holds the wanted value, or it was left alone and the wanted value is zero. */
  ghost predicate SparseAt(before: seq<byte>, after: seq<byte>, i: int, wanted: byte)
    requires 0 <= i < |before| && |after| == |before|
  {
    after[i] == wanted || (wanted == 0 && after[i] == before[i])
  }

  ghost predicate ZeroIn(data: seq<byte>, lo: int, hi: int)
  {
    forall i :: 0 <= i < |data| && lo <= i < hi ==> data[i] == 0
  }

  predicate AllZero(data: seq<byte>) { forall i :: 0 <= i < |data| ==> data[i] == 0 }

  method IsAllZero(data: seq<byte>) returns (zero: bool)
    ensures zero <==> AllZero(data)
  {
    for i := 0 to |data|
      invariant forall j :: 0 <= j < i ==> data[j] == 0
    {
      if data[i] != 0 {
        return false;
      }
    }
    zero := true;
  }

  function Min(a: int, b: int): int { if a < b then a else b }

  // ---------- the source ----------

  /** Content behind a reader whose k-th read behaves as `outcome(k)`, never past the end. */
  datatype Source = Source(content: seq<byte>, outcome: nat -> ReadOutcome, canceled: nat -> bool)

  function Delivered(source: Source, k: nat, offset: nat, wanted: nat): (n: nat)
    ensures n <= wanted && (n > 0 ==> offset + n <= |source.content|)
  {
    var available := if offset <= |source.content| then |source.content| - offset else 0;
    Min(source.outcome(k).n, Min(wanted, available))
  }

  // ---------- the target ----------

  class File {
    var data: seq<byte>
    var writes: nat
    const outcome: nat -> WriteOutcome

    constructor (data: seq<byte>, outcome: nat -> WriteOutcome)
      ensures this.data == data && this.outcome == outcome
    {
      this.data, this.outcome, this.writes := data, outcome, 0;
    }

    /** Grows with zeros or cuts. */
    method Truncate(size: nat)
      modifies this`data
      ensures |data| == size
      ensures forall i :: 0 <= i < size ==> data[i] == if i < |old(data)| then old(data)[i] else 0
    {
      var d := data;
      data := seq(size, i requires 0 <= i < size => if i < |d| then d[i] else 0);
    }

    method WriteAt(bytes: seq<byte>, offset: nat) returns (written: nat, error: bool)
      requires offset + |bytes| <= |data|
      modifies this
      ensures SameOutside(old(data), data, offset, offset + |bytes|)
      ensures !error && written == |bytes| ==> data[offset..offset + |bytes|] == bytes
    {
      writes := writes + 1;
      var o := outcome(writes);
      written := if o.Full? then |bytes| else Min(o.written, |bytes|);
      error := o.Partial? && o.error;
      data := data[..offset] + bytes[..written] + data[offset + written..];
    }

    /** Skips runs of zero blocks and writes runs of non-zero blocks. */
    method WriteSparseBlocks(bytes: seq<byte>, offset: nat) returns (ok: bool)
      requires offset + |bytes| <= |data|
      modifies this
      ensures SameOutside(old(data), data, offset, offset + |bytes|)
      ensures ok ==> forall i :: 0 <= i < |bytes| ==> SparseAt(old(data), data, offset + i, bytes[i])
    {
      var start := 0;
      while start < |bytes|
        invariant 0 <= start <= |bytes|
        invariant SameOutside(old(data), data, offset, offset + start)
        invariant forall i :: 0 <= i < start ==> SparseAt(old(data), data, offset + i, bytes[i])
      {
        start := SkipZeroBlocks(bytes, start, old(data), data, offset);
        if start == |bytes| {
          break;
        }
        var end := EndOfRun(bytes, start);
        ghost var before := data;
        var written, error := WriteAt(bytes[start..end], offset + start);
        SameOutsideTrans(old(data), before, data, offset, start, end);
        if error || written != end - start {
          return false;
        }
        RunWritten(old(data), before, data, bytes, offset, start, end);
        start := end;
      }
      ok := true;
    }

    /** Copies [offset, offset + length) of the source to the same place, in pieces of at most
        `bufferSize` bytes and whatever size the reads turn out to have.  `before` counts what was asked
        of the source up to now, so that no two reads of it have to behave alike. */
    method CopyReaderAtRange(source: Source, offset: nat, length: nat, bufferSize: nat, before: nat)
      returns (ok: bool, k: nat)
      requires |source.content| <= |data|
      modifies this
      ensures SameOutside(old(data), data, offset, offset + length)
      ensures ok && length > 0 ==> offset + length <= |source.content|
      ensures ok ==> forall i :: offset <= i < offset + length ==> SparseAt(old(data), data, i, source.content[i])
    {
      var copied := 0;
      k := before;
      while copied < length
        invariant 0 <= copied <= length
        invariant copied > 0 ==> offset + copied <= |source.content|
        invariant SameOutside(old(data), data, offset, offset + copied)
        invariant forall i :: offset <= i < offset + copied ==> SparseAt(old(data), data, i, source.content[i])
      {
        k := k + 1;
        if source.canceled(k) {
          return false, k;
        }
        var chunk := Min(bufferSize, length - copied);
        var n := Delivered(source, k, offset + copied, chunk);
        var error := source.outcome(k).error;
        if error.OtherError? || n == 0 {
          return false, k;
        }
        ghost var was := data;
        var piece := source.content[offset + copied..offset + copied + n];
        var written := WriteSparseBlocks(piece, offset + copied);
        SameOutsideTrans(old(data), was, data, offset, copied, copied + n);
        if !written {
          return false, k;
        }
        PieceCopied(old(data), was, data, source.content, piece, offset, offset + copied, n);
        copied := copied + n;
        if error.Eof? && copied < length {
          return false, k;
        }
      }
      ok := true;
    }

    /** Copies a whole source of `size` bytes, hashing exactly the bytes it copies. */
    method CopySparseImageWithHash(source: Source, size: nat, bufferSize: nat) returns (ok: bool, hashed: seq<byte>)
      modifies this
      ensures ok ==> size <= |source.content| && hashed == source.content[..size] && |data| == size
      ensures ok && old(data) == [] ==> data == source.content[..size]
      ensures ok ==> forall i :: 0 <= i < size ==>
                data[i] == source.content[i] || (source.content[i] == 0 && i < |old(data)| && data[i] == old(data)[i])
    {
      hashed := [];
      Truncate(size);
      ghost var blank := data;
      var offset, k := 0, 0;
      while offset < size
        invariant 0 <= offset <= size && (offset > 0 ==> offset <= |source.content|)
        invariant |data| == size && SameOutside(blank, data, 0, offset)
        invariant offset <= |source.content| ==> hashed == source.content[..offset]
        invariant forall i :: 0 <= i < offset ==> SparseAt(blank, data, i, source.content[i])
      {
        k := k + 1;
        if source.canceled(k) {
          return false, hashed;
        }
        var chunk := Min(bufferSize, size - offset);
        var n := Delivered(source, k, offset, chunk);
        var error := source.outcome(k).error;
        if error.OtherError? || n == 0 {
          return false, hashed;
        }
        var piece := source.content[offset..offset + n];
        hashed := hashed + piece;
        assert source.content[..offset] + piece == source.content[..offset + n];
        ghost var before := data;
        var written := WriteSparseBlocks(piece, offset);
        SameOutsideTrans(blank, before, data, 0, offset, offset + n);
        if !written {
          return false, hashed;
        }
        PieceCopied(blank, before, data, source.content, piece, 0, offset, n);
        offset := offset + n;
        if error.Eof? && offset < size {
          return false, hashed;
        }
      }
      ok := true;
    }

    /** Writes out a whole virtual disk, copying only the extents that hold data.  `extent` is the
        image's own map, asked at a position. */
    method ConvertToRaw(image: Source, extent: int -> Option<Extent>, maxDiskBytes: int, bufferSize: nat)
      returns (ok: bool)
      requires |image.content| <= MAX_INT64
      modifies this
      ensures ok ==> 0 < |image.content| == |data| && |image.content| <= maxDiskBytes
      // The result is the virtual disk, provided the map is truthful about what reads as zero.
      ensures ok && old(data) == [] && Truthful(image.content, extent) ==> data == image.content
    {
      var size := |image.content|;
      if size == 0 || size > maxDiskBytes {
        return false;
      }
      Truncate(size);
      ghost var blank := data;
      var offset, k: nat := 0, 0;
      while offset < size
        invariant 0 <= offset && |data| == size
        invariant forall i :: offset <= i < size ==> data[i] == blank[i]
        invariant Truthful(image.content, extent) ==>
                    forall i :: 0 <= i < Min(offset, size) ==> SparseAt(blank, data, i, image.content[i])
        decreases size - offset
      {
        k := k + 1;
        if image.canceled(k) {
          return false;
        }
        var e := extent(offset);
        if e.None? {
          return false;
        }
        var end := Wrap64(e.value.start + e.value.length);
        if end <= offset {
          return false;
        }
        var start := if e.value.start > offset then e.value.start else offset;
        ghost var before := data;
        if e.value.stored && !e.value.zero && start < end {
          var copied: bool;
          copied, k := CopyReaderAtRange(image, start, end - start, bufferSize, k);
          if !copied {
            return false;
          }
        }
        ExtentDone(blank, before, data, image.content, extent, offset, start, end);
        offset := end;
      }
      ok := true;
    }
  }

  const MAX_INT64: int := 0x7FFF_FFFF_FFFF_FFFF

  /** Two's-complement addition of 64-bit signed integers. */
  function Wrap64(x: int): int
  {
    var m := x % 0x1_0000_0000_0000_0000;
    if m > MAX_INT64 then m - 0x1_0000_0000_0000_0000 else m
  }

  /** Gaps before an extent, and extents that are unallocated or marked zero, read as zero. */
  ghost predicate Truthful(content: seq<byte>, extent: int -> Option<Extent>)
  {
    forall offset :: 0 <= offset < |content| && extent(offset).Some? ==>
      var e := extent(offset).value;
      && ZeroIn(content, offset, e.start)
      && (!(e.stored && !e.zero) ==> ZeroIn(content, offset, Wrap64(e.start + e.length)))
  }

  lemma ExtentDone(blank: seq<byte>, before: seq<byte>, after: seq<byte>, content: seq<byte>,
                   extent: int -> Option<Extent>, offset: nat, start: int, end: int)
    requires |blank| == |before| == |after| == |content| && offset < |content| && extent(offset).Some?
    requires var e := extent(offset).value;
             && end == Wrap64(e.start + e.length) && end > offset
             && start == (if e.start > offset then e.start else offset)
             && (if e.stored && !e.zero && start < end
                 then SameOutside(before, after, start, end) && end <= |content|
                      && forall i :: start <= i < end ==> SparseAt(before, after, i, content[i])
                 else after == before)
    requires forall i :: offset <= i < |blank| ==> before[i] == blank[i]
    ensures forall i :: Min(end, |blank|) <= i < |blank| ==> after[i] == blank[i]
    ensures Truthful(content, extent) && (forall i :: 0 <= i < offset ==> SparseAt(blank, before, i, content[i])) ==>
              forall i :: 0 <= i < Min(end, |blank|) ==> SparseAt(blank, after, i, content[i])
  {
    var e := extent(offset).value;
    if Truthful(content, extent) && (forall i :: 0 <= i < offset ==> SparseAt(blank, before, i, content[i])) {
      forall i | 0 <= i < Min(end, |blank|) ensures SparseAt(blank, after, i, content[i]) {
        if i < offset {
          assert SparseAt(blank, before, i, content[i]);
        } else if e.stored && !e.zero && start <= i {
          assert SparseAt(before, after, i, content[i]);
        } else {
          assert content[i] == 0;
        }
      }
    }
  }

  /** Extends a sparse copy of [lo, at) by the piece just written at `at`. */
  lemma PieceCopied(a: seq<byte>, b: seq<byte>, c: seq<byte>, content: seq<byte>, piece: seq<byte>, lo: nat, at: nat,
                    n: nat)
    requires lo <= at && at + n <= |content| && piece == content[at..at + n] && at + n <= |a| == |b| == |c|
    requires SameOutside(a, b, lo, at) && SameOutside(b, c, at, at + n)
    requires forall i :: lo <= i < at ==> SparseAt(a, b, i, content[i])
    requires forall i :: 0 <= i < n ==> SparseAt(b, c, at + i, piece[i])
    ensures forall i :: lo <= i < at + n ==> SparseAt(a, c, i, content[i])
  {
    forall i | lo <= i < at + n ensures SparseAt(a, c, i, content[i]) {
      if i < at {
        assert SparseAt(a, b, i, content[i]) && c[i] == b[i];
      } else {
        assert SparseAt(b, c, at + (i - at), piece[i - at]);
        assert piece[i - at] == content[i] && b[i] == a[i];
      }
    }
  }

  /** Moves past whole blocks of zeros; what is skipped needs no writing. */
  method SkipZeroBlocks(bytes: seq<byte>, from: nat, ghost before: seq<byte>, ghost now: seq<byte>, offset: nat)
    returns (start: nat)
    requires from < |bytes| && offset + |bytes| <= |before|
    requires SameOutside(before, now, offset, offset + from)
    requires forall i :: 0 <= i < from ==> SparseAt(before, now, offset + i, bytes[i])
    ensures from <= start <= |bytes|
    ensures start < |bytes| ==> !AllZero(bytes[start..Min(start + BLOCK, |bytes|)])
    ensures forall i :: 0 <= i < start ==> SparseAt(before, now, offset + i, bytes[i])
    ensures AllZero(bytes[from..start])
  {
    start := from;
    while start < |bytes|
      invariant from <= start <= |bytes|
      invariant AllZero(bytes[from..start])
    {
      var end := Min(start + BLOCK, |bytes|);
      var zero := IsAllZero(bytes[start..end]);
      if !zero {
        break;
      }
      assert bytes[from..end] == bytes[from..start] + bytes[start..end];
      start := end;
    }
    forall i | 0 <= i < start ensures SparseAt(before, now, offset + i, bytes[i]) {
      if i >= from {
        assert bytes[from..start][i - from] == bytes[i];
      }
    }
  }

  /** The end of the run of non-zero blocks that begins at `start`. */
  method EndOfRun(bytes: seq<byte>, start: nat) returns (end: nat)
    requires start < |bytes| && !AllZero(bytes[start..Min(start + BLOCK, |bytes|)])
    ensures start < end <= |bytes|
    ensures end < |bytes| ==> AllZero(bytes[end..Min(end + BLOCK, |bytes|)])
  {
    end := start;
    while end < |bytes|
      invariant start <= end <= |bytes|
      invariant end == start ==> !AllZero(bytes[start..Min(start + BLOCK, |bytes|)])
    {
      var next := Min(end + BLOCK, |bytes|);
      var zero := IsAllZero(bytes[end..next]);
      if zero {
        break;
      }
      end := next;
    }
  }

  lemma SameOutsideTrans(a: seq<byte>, b: seq<byte>, c: seq<byte>, offset: nat, start: nat, end: nat)
    requires start <= end && SameOutside(a, b, offset, offset + start)
        && SameOutside(b, c, offset + start, offset + end)
    ensures SameOutside(a, c, offset, offset + end)
  {
  }

  lemma RunWritten(a: seq<byte>, b: seq<byte>, c: seq<byte>, bytes: seq<byte>, offset: nat, start: nat, end: nat)
    requires start <= end <= |bytes| && offset + |bytes| <= |a| == |b| == |c|
    requires SameOutside(b, c, offset + start, offset + end)
    requires forall i :: 0 <= i < start ==> SparseAt(a, b, offset + i, bytes[i])
    requires c[offset + start..offset + end] == bytes[start..end]
    ensures forall i :: 0 <= i < end ==> SparseAt(a, c, offset + i, bytes[i])
  {
    forall i | 0 <= i < end ensures SparseAt(a, c, offset + i, bytes[i]) {
      if i < start {
        assert SparseAt(a, b, offset + i, bytes[i]);
        assert c[offset + i] == b[offset + i];
      } else {
        assert c[offset + start..offset + end][i - start] == bytes[start..end][i - start];
      }
    }
  }
}
