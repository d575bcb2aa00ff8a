/** Baking a header from an image, and rebuilding the image from its present chunks. */
module Elision {
  import opened Bytes
  import opened Geometry
  import HeaderCodec

  type Hash = seq<byte> -> Digest

  const DEFAULT_CHUNK_SIZE: int := 0x10_0000

  /** h describes `image`: exactly the all-zero chunks are absent, and the others carry their digest. */
  ghost predicate Describes(h: Header, image: seq<byte>, sha: Hash) {
    && h.Sane() && h.totalSize == |image|
    && forall i :: 0 <= i < |h.present| ==>
      && (h.present[i] <==> !AllZero(h.Slice(image, i)))
      && h.blockSHA[i] == (if h.present[i] then sha(h.Slice(image, i)) else ZERO_DIGEST)
  }

  /** Header-absent chunks are zero in the image: weaker than Describes, all that serving relies on. */
  ghost predicate AbsentAreZero(h: Header, image: seq<byte>) {
    && h.Sane() && h.totalSize == |image|
    && forall i :: 0 <= i < |h.present| && !h.present[i] ==> AllZero(h.Slice(image, i))
  }

  /** anyNonZero. */
  method AnyNonZero(b: seq<byte>) returns (r: bool)
    ensures r <==> !AllZero(b)
  {
    for i := 0 to |b|
      invariant AllZero(b[..i])
    {
      if b[i] != 0 { return true; }
    }
    assert b[..|b|] == b;
    return false;
  }

  /** The first k chunks, each fetched or, when absent, filled with zeros. */
  function Assemble(h: Header, fetched: seq<seq<byte>>, k: nat): seq<byte>
    requires h.Sane() && k <= |h.present| == |fetched|
  {
    if k == 0 then []
    else
      h.TilesAt(k - 1);
      Assemble(h, fetched, k - 1) + (if h.present[k - 1] then fetched[k - 1] else Zeros(h.Span(k - 1).1))
  }

  /** Where the first k chunks end. */
  function Cut(h: Header, k: nat): (c: nat)
    requires h.Sane() && k <= |h.present|
    ensures c <= h.totalSize
    ensures k == 0 ==> c == 0
    ensures k == |h.present| ==> c == h.totalSize
  {
    h.NumChunksIsCeiling();
    if k < |h.present| then h.TilesAt(k); h.Lo(k) else h.totalSize
  }

  lemma CutStep(h: Header, k: nat)
    requires h.Sane() && k < |h.present|
    ensures 0 <= Cut(h, k) == h.Lo(k) < h.Hi(k) == Cut(h, k + 1) <= h.totalSize
    ensures h.Span(k).1 == Cut(h, k + 1) - Cut(h, k)
  {
    h.TilesAt(k);
  }

  /** Zero elision is lossless: the present chunks alone rebuild every prefix of the image, short last chunk included. */
  lemma {:induction false} ElisionIsLossless(h: Header, image: seq<byte>, fetched: seq<seq<byte>>, k: nat)
    requires AbsentAreZero(h, image) && k <= |h.present| == |fetched|
    requires forall i :: 0 <= i < |fetched| && h.present[i] ==> fetched[i] == h.Slice(image, i)
    ensures Assemble(h, fetched, k) == image[..Cut(h, k)]
    ensures k == |h.present| ==> Assemble(h, fetched, k) == image
  {
    hide Header.NumChunks, Header.Span, Header.Lo, Header.Hi, AllZero, Cut;
    if k > 0 {
      ElisionIsLossless(h, image, fetched, k - 1);
      CutStep(h, k - 1);
      var s := h.Slice(image, k - 1);
      if !h.present[k - 1] { AllZeroIsZeros(s); }
      assert image[..Cut(h, k - 1)] + s == image[..Cut(h, k)];
    }
    if k == |h.present| { assert image[..Cut(h, k)] == image; }
  }

  /** Two images of one size with the same header agree, when the digest tells their chunks apart. */
  lemma HeaderDeterminesImage(h: Header, a: seq<byte>, b: seq<byte>, sha: Hash)
    requires Describes(h, a, sha) && Describes(h, b, sha)
    requires forall i :: 0 <= i < |h.present| && sha(h.Slice(a, i)) == sha(h.Slice(b, i)) ==> h.Slice(a, i) == h.Slice(b, i)
    ensures a == b
  {
    var fetched := seq(|h.present|, i requires 0 <= i < |h.present| => h.Slice(a, i));
    ElisionIsLossless(h, a, fetched, |h.present|);
    ElisionIsLossless(h, b, fetched, |h.present|);
  }

  /** The i-th buffer that sequential reads of `size` bytes fill. */
  function Piece(file: seq<byte>, size: nat, i: nat): seq<byte> {
    var from, to := Min(i * size, |file|), Min(i * size + size, |file|);
    if 0 <= from <= to then file[from..to] else []
  }

  /** The scan of BuildHeader: one sequential pass, a buffer of `size` bytes at a time. */
  method ScanChunks(file: seq<byte>, n: nat, size: nat, sha: Hash) returns (flags: seq<bool>, digests: seq<Digest>)
    ensures |flags| == |digests| == n
    ensures forall i :: 0 <= i < n ==>
      && (flags[i] <==> !AllZero(Piece(file, size, i)))
      && digests[i] == (if flags[i] then sha(Piece(file, size, i)) else ZERO_DIGEST)
  {
    hide AllZero, Piece;
    var present := new bool[n](_ => false);
    var blockSHA := new Digest[n](_ => ZERO_DIGEST);
    var pos := 0;
    for i := 0 to n
      invariant pos == Min(i * size, |file|) && 0 <= pos
      invariant forall j :: i <= j < n ==> !present[j] && blockSHA[j] == ZERO_DIGEST
      invariant forall j :: 0 <= j < i ==>
        && (present[j] <==> !AllZero(Piece(file, size, j)))
        && blockSHA[j] == (if present[j] then sha(Piece(file, size, j)) else ZERO_DIGEST)
    {
      assert (i + 1) * size == i * size + size;
      var nr := Min(size, |file| - pos);  // io.ReadFull: short only at the end of the file
      PieceIs(file, size, i, pos, nr);
      var buf := file[pos..pos + nr];
      pos := pos + nr;
      var nonZero := AnyNonZero(buf);
      if nonZero {
        present[i] := true;
        blockSHA[i] := sha(buf);
      }
    }
    flags, digests := present[..], blockSHA[..];
  }

  lemma PieceIs(file: seq<byte>, size: nat, i: nat, pos: nat, nr: nat)
    requires pos == Min(i * size, |file|) && nr == Min(size, |file| - pos)
    ensures Piece(file, size, i) == file[pos..pos + nr]
  {
  }

  function SizeOf(chunkSize: int): (size: nat)
    ensures size > 0
  {
    if chunkSize <= 0 then DEFAULT_CHUNK_SIZE else chunkSize
  }

  /** What BuildHeader returns: the chunk size is cut to 32 bits, the buffers are not. */
  ghost predicate Built(h: Header, file: seq<byte>, size: nat, sha: Hash) {
    && h.Shaped() && h.totalSize == |file| && h.chunkSize == size % 0x1_0000_0000 && h.version == HeaderCodec.FORMAT_VERSION
    && forall i :: 0 <= i < |h.present| ==>
      && (h.present[i] <==> !AllZero(Piece(file, size, i)))
      && h.blockSHA[i] == (if h.present[i] then sha(Piece(file, size, i)) else ZERO_DIGEST)
  }

  /** BuildHeader. */
  method BuildHeader(file: seq<byte>, chunkSize: int, sha: Hash) returns (h: Header)
    requires |file| < 0x8000_0000_0000_0000
    ensures Built(h, file, SizeOf(chunkSize), sha)
    ensures SizeOf(chunkSize) < 0x1_0000_0000 ==>
      Describes(h, file, sha) && (|h.present| < 0x1_0000_0000 ==> HeaderCodec.Encodable(h))
  {
    hide AllZero, Piece;
    var size := SizeOf(chunkSize);
    h := Header(HeaderCodec.FORMAT_VERSION, size % 0x1_0000_0000, |file|, [], []);
    if h.chunkSize > 0 {
      h.NumChunksIsCeiling();
    }
    var n := h.NumChunks();
    assert n >= 0;
    var present, blockSHA := ScanChunks(file, n, size, sha);
    h := h.(present := present, blockSHA := blockSHA);
    if size < 0x1_0000_0000 {
      BuiltDescribes(h, file, size, sha);
    }
  }

  lemma PieceIsSlice(h: Header, file: seq<byte>, i: nat)
    requires h.Sane() && h.totalSize == |file| && i < h.NumChunks()
    ensures Piece(file, h.chunkSize, i) == h.Slice(file, i)
  {
    hide Header.NumChunks;
    h.TilesAt(i);
    assert (i + 1) * h.chunkSize == i * h.chunkSize + h.chunkSize;
  }

  lemma BuiltDescribes(h: Header, file: seq<byte>, size: nat, sha: Hash)
    requires Built(h, file, size, sha) && 0 < size < 0x1_0000_0000 && |file| < 0x8000_0000_0000_0000
    ensures Describes(h, file, sha)
  {
    hide Header.NumChunks, Header.Slice, Piece, AllZero;
    forall i | 0 <= i < |h.present|
      ensures h.present[i] <==> !AllZero(h.Slice(file, i))
      ensures h.blockSHA[i] == if h.present[i] then sha(h.Slice(file, i)) else ZERO_DIGEST
    {
      PieceIsSlice(h, file, i);
    }
  }

  // ---- chunk sizes that do not fit 32 bits ----

  ghost predicate AlwaysDescribed(total: nat, size: nat, sha: Hash) {
    forall file, h :: |file| == total && Built(h, file, size, sha) ==> Describes(h, file, sha)
  }

  /** From 2^32 on the header is right for every image of a length exactly when one chunk of the cut size holds it all. */
  lemma WideChunksIff(total: nat, size: nat, sha: Hash)
    requires size >= 0x1_0000_0000 && total < 0x8000_0000_0000_0000
    ensures AlwaysDescribed(total, size, sha) <==> size % 0x1_0000_0000 > 0 && total <= size % 0x1_0000_0000
  {
    hide AllZero, Header.NumChunks, Describes, Built;
    var cut := size % 0x1_0000_0000;
    if cut > 0 && total <= cut {
      forall file, h | |file| == total && Built(h, file, size, sha) ensures Describes(h, file, sha) {
        OneWideChunk(h, file, size, sha);
      }
    } else {
      var file, h := WideChunkFails(total, size, sha);
      assert |file| == total && Built(h, file, size, sha) && !Describes(h, file, sha);
    }
  }

  lemma OneWideChunk(h: Header, file: seq<byte>, size: nat, sha: Hash)
    requires Built(h, file, size, sha) && size >= 0x1_0000_0000 && |file| <= size % 0x1_0000_0000 && size % 0x1_0000_0000 > 0
    ensures Describes(h, file, sha)
  {
    hide AllZero;
    h.NumChunksIsCeiling();
    if |h.present| > 0 {
      assert |h.present| <= 1 by {
        if |h.present| >= 2 {
          MulLe(1, |h.present| - 1, h.chunkSize);
        }
      }
      h.TilesAt(0);
      assert 0 * size == 0;
      assert Piece(file, size, 0) == file == h.Slice(file, 0);
    }
  }

  lemma WideChunkFails(total: nat, size: nat, sha: Hash) returns (file: seq<byte>, h: Header)
    requires size >= 0x1_0000_0000 && total < 0x8000_0000_0000_0000
    requires size % 0x1_0000_0000 == 0 || total > size % 0x1_0000_0000
    ensures |file| == total && Built(h, file, size, sha) && !Describes(h, file, sha)
  {
    var cut := size % 0x1_0000_0000;
    file := seq(total, i => if i == cut then 1 else 0);
    h := Header(HeaderCodec.FORMAT_VERSION, cut, total, [], []);
    if cut == 0 {
    } else {
      h.NumChunksIsCeiling();
      var n := h.NumChunks();
      var f := file;
      assert n >= 1;
      var flags := seq(n, i requires 0 <= i < n => !AllZero(Piece(f, size, i)));
      h := h.(present := flags, blockSHA := seq(n, i requires 0 <= i < n => if flags[i] then sha(Piece(f, size, i)) else ZERO_DIGEST));
      assert h.NumChunks() == n;
      h.TilesAt(0);
      assert Piece(file, size, 0)[cut] == 1;
      assert AllZero(h.Slice(file, 0)) && h.present[0];
    }
  }
}
