/** Header of a chunked image and its chunk geometry (diskstream/header.go). */
module Geometry {
  import opened Bytes

  type Digest = d: seq<byte> | |d| == 32 witness Zeros(32)

  const ZERO_DIGEST: Digest := Zeros(32)

  datatype Header = Header(
    version: uint32,
    chunkSize: uint32,
    totalSize: uint64,
    present: seq<bool>,
    blockSHA: seq<Digest>)
  {
    /** uint64 arithmetic, then int(...): the sum may wrap for sizes near 2^64. */
    function NumChunks(): int {
      if chunkSize == 0 then 0
      else ToInt64(((totalSize + chunkSize - 1) % 0x1_0000_0000_0000_0000) / chunkSize)
    }

    predicate IsPresent(i: int) { 0 <= i < |present| && present[i] }

    /** Both tables have one entry per chunk, as BuildHeader and DecodeHeader make them. */
    ghost predicate Shaped() { |present| == |blockSHA| == NumChunks() }

    /** The image fits an int64 and has a positive chunk size. */
    ghost predicate Sane() { Shaped() && chunkSize > 0 && totalSize < 0x8000_0000_0000_0000 }

    /** ChunkRange in int64 arithmetic: the byte range [offset, offset+length) of chunk i. */
    function ChunkRange(i: nat): (int, int) {
      var total := ToInt64(totalSize);
      var offset := Int64(i * chunkSize);
      var end := Int64(offset + chunkSize);
      var stop := if end > total then total else end;
      var start := if offset > total then total else offset;
      (start, Int64(stop - start))
    }

    /** The same over the integers, where nothing overflows. */
    function Span(i: nat): (int, int) {
      var offset := i * chunkSize;
      var end := Min(offset + chunkSize, totalSize);
      (Min(offset, totalSize), end - Min(offset, totalSize))
    }

    /** The end of the last chunk, before it is cut to the image, fits an int64. */
    ghost predicate Fits() { NumChunks() * chunkSize < 0x8000_0000_0000_0000 }

    /** Go's `/` truncates towards zero. */
    function ChunkForOffset(off: int): int {
      if chunkSize == 0 then 0 else if off >= 0 then off / chunkSize else -(-off / chunkSize)
    }

    function Lo(i: nat): nat { Span(i).0 }
    function Hi(i: nat): int { Span(i).0 + Span(i).1 }

    /** The bytes of chunk i in a file of the image's size. */
    function Slice(data: seq<byte>, i: nat): seq<byte>
      requires Sane() && |data| == totalSize && i < NumChunks()
    {
      TilesAt(i);
      data[Lo(i)..Hi(i)]
    }

    lemma NumChunksIsCeiling()
      requires chunkSize > 0 && totalSize < 0x8000_0000_0000_0000
      ensures NumChunks() == (totalSize + chunkSize - 1) / chunkSize
      ensures (NumChunks() - 1) * chunkSize < totalSize <= NumChunks() * chunkSize || totalSize == NumChunks() == 0
    {
      var s := totalSize + chunkSize - 1;
      var q := s / chunkSize;
      DivBounds(s, chunkSize);
      assert q <= s by { if q > s { MulLe(1, chunkSize, q); } }
      assert q < 0x8000_0000_0000_0000 by {
        if q >= 0x8000_0000_0000_0000 {
          if chunkSize >= 2 { MulLe(2, chunkSize, q); }
        }
      }
    }

    /** Chunk i covers a non-empty range that starts where chunk i-1 stops. */
    lemma TilesAt(i: nat)
      requires Sane() && i < NumChunks()
      ensures 0 <= Lo(i) < Hi(i) <= totalSize
      ensures Lo(i) == i * chunkSize && Hi(i) == Min((i + 1) * chunkSize, totalSize) && Span(i).1 <= chunkSize
      ensures i + 1 < NumChunks() ==> Hi(i) == Lo(i + 1)
      ensures i + 1 == NumChunks() ==> Hi(i) == totalSize
      ensures i == 0 ==> Lo(i) == 0
    {
      NumChunksIsCeiling();
      var n := NumChunks();
      MulLe(i, n - 1, chunkSize);
      assert (i + 1) * chunkSize == i * chunkSize + chunkSize;
      if i + 1 < n { MulLe(i + 1, n - 1, chunkSize); }
    }

    /** While the end of a chunk fits an int64, ChunkRange is its span. */
    lemma RangeIsSpan(i: nat)
      requires chunkSize > 0 && totalSize < 0x8000_0000_0000_0000 && i < NumChunks()
      requires i * chunkSize + chunkSize < 0x8000_0000_0000_0000
      ensures ChunkRange(i) == Span(i)
    {
      hide NumChunks;
      NumChunksIsCeiling();
      var n := NumChunks();
      MulLe(i, n - 1, chunkSize);
      ToInt64Id(i * chunkSize);
      ToInt64Id(i * chunkSize + chunkSize);
      ToInt64Id(Min(i * chunkSize + chunkSize, totalSize) - i * chunkSize);
    }

    /** Otherwise it runs past the image: the sum wraps to a negative number, is not cut, and the length comes out whole. */
    lemma RangeOverflows(i: nat)
      requires chunkSize > 0 && totalSize < 0x8000_0000_0000_0000 && i < NumChunks()
      requires i * chunkSize + chunkSize >= 0x8000_0000_0000_0000
      ensures ChunkRange(i) == (i * chunkSize, chunkSize) && i * chunkSize + chunkSize > totalSize
    {
      hide NumChunks;
      NumChunksIsCeiling();
      var n := NumChunks();
      MulLe(i, n - 1, chunkSize);
      ToInt64Id(i * chunkSize);
      var end := i * chunkSize + chunkSize - 0x1_0000_0000_0000_0000;
      assert Int64(i * chunkSize + chunkSize) == end;
      assert Int64(end - i * chunkSize) == chunkSize;
    }

    /** The ranges the code computes are the chunks' spans, and so tile the image, exactly when the last end fits. */
    lemma RangesAreSpansIff()
      requires chunkSize > 0 && totalSize < 0x8000_0000_0000_0000
      ensures (forall i :: 0 <= i < NumChunks() ==> ChunkRange(i) == Span(i)) <==> Fits()
    {
      hide NumChunks, ChunkRange, Span;
      var n := NumChunks();
      if Fits() {
        forall i | 0 <= i < n ensures ChunkRange(i) == Span(i) {
          MulLe(i + 1, n, chunkSize);
          assert (i + 1) * chunkSize == i * chunkSize + chunkSize;
          RangeIsSpan(i);
        }
      } else {
        NumChunksIsCeiling();
        assert n > 0;
        assert (n - 1) * chunkSize + chunkSize == n * chunkSize;
        RangeOverflows(n - 1);
        LastSpan(n - 1);
      }
    }

    lemma FetchedIsSpan(i: nat)
      requires Sane() && Fits() && i < NumChunks()
      ensures ChunkRange(i) == Span(i)
    {
      hide ChunkRange, Span, NumChunks;
      RangesAreSpansIff();
    }

    lemma LastSpan(i: nat)
      requires i * chunkSize + chunkSize > totalSize
      ensures Span(i).0 + Span(i).1 <= totalSize && Span(i) != (i * chunkSize, chunkSize)
    {
    }

    /** Every byte of the image lies in the chunk that ChunkForOffset names. */
    lemma OffsetInChunk(off: int)
      requires Sane() && 0 <= off < totalSize
      ensures 0 <= ChunkForOffset(off) < NumChunks()
      ensures Lo(ChunkForOffset(off)) <= off < Hi(ChunkForOffset(off))
    {
      hide NumChunks, Span, Lo, Hi;
      NumChunksIsCeiling();
      var i := off / chunkSize;
      DivBounds(off, chunkSize);
      assert (i + 1) * chunkSize == i * chunkSize + chunkSize;
      if i >= NumChunks() { MulLe(NumChunks(), i, chunkSize); }
      TilesAt(i);
    }

    /** Distinct chunks do not overlap. */
    lemma Disjoint(i: nat, j: nat)
      requires Sane() && i < j < NumChunks()
      ensures Hi(i) <= Lo(j)
    {
      TilesAt(i);
      TilesAt(j);
      MulLe(i + 1, j, chunkSize);
      assert (i + 1) * chunkSize == i * chunkSize + chunkSize;
    }

    /** The chunk holding a byte is unique. */
    lemma ChunkUnique(i: nat, off: int)
      requires Sane() && i < NumChunks() && Lo(i) <= off < Hi(i)
      ensures 0 <= off < totalSize && ChunkForOffset(off) == i
    {
      TilesAt(i);
      OffsetInChunk(off);
      var j := ChunkForOffset(off);
      if i < j { Disjoint(i, j); } else if j < i { Disjoint(j, i); }
    }

    lemma ChunkForOffsetMono(a: int, b: int)
      requires chunkSize > 0 && 0 <= a <= b
      ensures ChunkForOffset(a) <= ChunkForOffset(b)
    {
      DivBounds(a, chunkSize);
      DivBounds(b, chunkSize);
      var i, j := a / chunkSize, b / chunkSize;
      assert (j + 1) * chunkSize == j * chunkSize + chunkSize;
      if j < i { MulLe(j + 1, i, chunkSize); }
    }
  }

  lemma ToInt64Id(x: int)
    requires 0 <= x < 0x8000_0000_0000_0000
    ensures Int64(x) == x
  {
  }

  lemma DivBounds(a: nat, b: nat)
    requires b > 0
    ensures (a / b) * b <= a < (a / b) * b + b && a / b >= 0
  {
    assert a == (a / b) * b + a % b;
  }

  lemma MulLe(a: int, b: int, c: nat)
    requires a <= b
    ensures a * c <= b * c
  {
  }
}
