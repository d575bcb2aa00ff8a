/** Page-at-a-time resolution of a guest memory image: no digests, and only the first byte's chunk is made sure of
    (memstream/resolver.go). The chunk geometry is diskstream's. */
module MemPages {
  import opened Bytes
  import opened Geometry
  import opened Elision
  import CacheSafety

  /** A cached chunk holds the image's bytes; the rest of the cache file is anything at all. */
  ghost predicate CacheOk(h: Header, image: seq<byte>, cache: seq<byte>, cached: seq<bool>) {
    && h.Sane() && h.totalSize == |image| == |cache| && |cached| == |h.present|
    && AbsentAreZero(h, image)
    && forall i :: 0 <= i < |cached| && cached[i] ==> h.Slice(cache, i) == h.Slice(image, i)
  }

  /** What ResolvePage puts into the first p bytes. */
  function Page(h: Header, cache: seq<byte>, off: nat, p: nat): (r: seq<byte>)
    requires off + p <= |cache|
    ensures |r| == p
  {
    if h.IsPresent(h.ChunkForOffset(off)) then cache[off..off + p] else Zeros(p)
  }

  /** The p bytes at off lie in the chunk of the first. */
  ghost predicate OneChunk(h: Header, off: nat, p: nat) { p > 0 ==> h.ChunkForOffset(off + p - 1) == h.ChunkForOffset(off) }

  lemma OneChunkInside(h: Header, off: nat, p: nat)
    requires h.Sane() && off + p <= h.totalSize && p > 0
    ensures var c := h.ChunkForOffset(off);
            0 <= c < |h.present| && h.Lo(c) <= off < h.Hi(c) && (OneChunk(h, off, p) <==> off + p <= h.Hi(c))
  {
    hide Header.ChunkForOffset, Header.Span, Header.NumChunks, Header.Lo, Header.Hi;
    h.OffsetInChunk(off);
    h.OffsetInChunk(off + p - 1);
    if off + p <= h.Hi(h.ChunkForOffset(off)) {
      h.ChunkUnique(h.ChunkForOffset(off), off + p - 1);
    }
  }

  lemma SubSlice(s: seq<byte>, lo: nat, hi: nat, a: nat, b: nat)
    requires lo <= a <= b <= hi <= |s|
    ensures s[lo..hi][a - lo..b - lo] == s[a..b]
  {
    var t, r := s[lo..hi][a - lo..b - lo], s[a..b];
    assert |t| == |r| && forall k :: 0 <= k < |r| ==> t[k] == s[lo..hi][a - lo + k] == r[k];
  }

  /** Inside one chunk the page is the image's, over any old contents of the cache file. */
  lemma PageIsImage(h: Header, image: seq<byte>, cache: seq<byte>, cached: seq<bool>, off: nat, p: nat)
    requires CacheOk(h, image, cache, cached) && off + p <= |image| && p > 0 && OneChunk(h, off, p)
    requires var c := h.ChunkForOffset(off); h.IsPresent(c) ==> cached[c]
    ensures Page(h, cache, off, p) == image[off..off + p]
  {
    hide Header.ChunkForOffset, Header.Span, Header.NumChunks, Header.Lo, Header.Hi;
    var c := h.ChunkForOffset(off);
    OneChunkInside(h, off, p);
    h.TilesAt(c);
    var lo, hi := h.Lo(c), h.Hi(c);
    SubSlice(image, lo, hi, off, off + p);
    if h.IsPresent(c) {
      assert h.Slice(cache, c) == h.Slice(image, c);
      SubSlice(cache, lo, hi, off, off + p);
    } else {
      assert AllZero(image[lo..hi]) by { assert h.Slice(image, c) == image[lo..hi]; }
      AllZeroIsZeros(image[off..off + p]);
    }
  }

  /** Across a chunk boundary it need not be: when the first chunk is present there are an image and an allowed cache,
      with that chunk cached, on which the page is wrong. */
  lemma StraddlingPageFails(h: Header, off: nat, p: nat) returns (image: seq<byte>, cache: seq<byte>, cached: seq<bool>)
    requires h.Sane() && off + p <= h.totalSize && p > 0 && !OneChunk(h, off, p) && h.IsPresent(h.ChunkForOffset(off))
    ensures CacheOk(h, image, cache, cached) && cached[h.ChunkForOffset(off)]
    ensures Page(h, cache, off, p) != image[off..off + p]
  {
    hide Header.ChunkForOffset, Header.Span, Header.NumChunks, Header.Lo, Header.Hi;
    var c := h.ChunkForOffset(off);
    OneChunkInside(h, off, p);
    h.TilesAt(c);
    var lo, hi := h.Lo(c), h.Hi(c);
    image := Zeros(h.totalSize);
    cache := seq(h.totalSize, i => if lo <= i < hi then 0 else 1);
    cached := seq(|h.present|, i => i == c);
    assert h.Slice(cache, c) == h.Slice(image, c);
    forall i | 0 <= i < |h.present| ensures AllZero(h.Slice(image, i)) {
      h.TilesAt(i);
    }
    assert hi < off + p;
    assert Page(h, cache, off, p) == cache[off..off + p];
    assert cache[off..off + p][hi - off] == cache[hi] == 1 && image[off..off + p][hi - off] == 0;
  }

  /** And when the first chunk is absent but a later one the page reaches is not, zeros are served over its bytes. */
  lemma AbsentPageFails(h: Header, off: nat, p: nat, j: nat) returns (image: seq<byte>, cache: seq<byte>, cached: seq<bool>)
    requires h.Sane() && off + p <= h.totalSize && p > 0 && !h.IsPresent(h.ChunkForOffset(off))
    requires h.ChunkForOffset(off) <= j <= h.ChunkForOffset(off + p - 1) && h.IsPresent(j)
    ensures CacheOk(h, image, cache, cached)
    ensures Page(h, cache, off, p) != image[off..off + p]
  {
    hide Header.ChunkForOffset, Header.Span, Header.NumChunks, Header.Lo, Header.Hi;
    h.OffsetInChunk(off);
    h.OffsetInChunk(off + p - 1);
    var c, d := h.ChunkForOffset(off), h.ChunkForOffset(off + p - 1);
    h.TilesAt(c);
    h.TilesAt(j);
    image := seq(h.totalSize, i => if h.IsPresent(h.ChunkForOffset(i)) then 1 else 0);
    cache, cached := image, seq(|h.present|, _ => false);
    forall i | 0 <= i < |h.present| && !h.present[i] ensures AllZero(h.Slice(image, i)) {
      h.TilesAt(i);
      forall k | h.Lo(i) <= k < h.Hi(i) ensures image[k] == 0 {
        h.ChunkUnique(i, k);
      }
    }
    var at := h.Lo(j);
    h.ChunkUnique(j, at);
    h.Disjoint(c, j);
    if j < d {
      h.Disjoint(j, d);
    }
    assert off <= at < off + p && image[at] == 1;
    assert Page(h, cache, off, p)[at - off] == 0 && image[off..off + p][at - off] == 1;
  }

  /** The page is right whatever the image and the old contents of the file. */
  ghost predicate AlwaysRight(h: Header, off: nat, p: nat) {
    forall image, cache, cached ::
      CacheOk(h, image, cache, cached) && off + p <= |image| && |image| == |cache| && |cached| == |h.present|
      && (h.IsPresent(h.ChunkForOffset(off)) ==> cached[h.ChunkForOffset(off)])
      ==> Page(h, cache, off, p) == image[off..off + p]
  }

  ghost predicate NonePresent(h: Header, off: nat, p: nat)
    requires p > 0
  {
    forall j :: h.ChunkForOffset(off) <= j <= h.ChunkForOffset(off + p - 1) ==> !h.IsPresent(j)
  }

  lemma AbsentRangeIsZero(h: Header, image: seq<byte>, off: nat, p: nat)
    requires AbsentAreZero(h, image) && off + p <= |image| && p > 0 && NonePresent(h, off, p)
    ensures image[off..off + p] == Zeros(p)
  {
    hide Header.ChunkForOffset, Header.Span, Header.NumChunks, Header.Lo, Header.Hi;
    var zeros := Zeros(h.totalSize);
    h.OffsetInChunk(off);
    h.OffsetInChunk(off + p - 1);
    forall i | 0 <= i < |h.present| && h.ChunkForOffset(off) <= i <= h.ChunkForOffset(off + p - 1)
      ensures h.Slice(zeros, i) == h.Slice(image, i)
    {
      h.TilesAt(i);
      assert !h.IsPresent(i);
      AllZeroIsZeros(h.Slice(image, i));
      AllZeroIsZeros(h.Slice(zeros, i));
    }
    CacheSafety.RangeServed(h, image, zeros, off, off + p);
    AllZeroIsZeros(zeros[off..off + p]);
  }

  /** The exact condition: ResolvePage, which makes sure of one chunk only, is right for every image and every old file
      exactly when the page lies in one chunk or touches no present chunk. */
  lemma PageRightIff(h: Header, off: nat, p: nat)
    requires h.Sane() && off + p <= h.totalSize && p > 0
    ensures AlwaysRight(h, off, p) <==> OneChunk(h, off, p) || NonePresent(h, off, p)
  {
    hide Header.ChunkForOffset, Header.Span, Header.NumChunks, Page, CacheOk, OneChunk;
    if OneChunk(h, off, p) {
      forall image, cache, cached | CacheOk(h, image, cache, cached) && off + p <= |image| && |image| == |cache| && |cached| == |h.present|
          && (h.IsPresent(h.ChunkForOffset(off)) ==> cached[h.ChunkForOffset(off)])
        ensures Page(h, cache, off, p) == image[off..off + p]
      {
        PageIsImage(h, image, cache, cached, off, p);
      }
    } else if NonePresent(h, off, p) {
      forall image, cache, cached | CacheOk(h, image, cache, cached) && off + p <= |image| && |image| == |cache| && |cached| == |h.present|
        ensures Page(h, cache, off, p) == image[off..off + p]
      {
        PageAllAbsent(h, image, cache, cached, off, p);
      }
    } else if h.IsPresent(h.ChunkForOffset(off)) {
      var image, cache, cached := StraddlingPageFails(h, off, p);
      CacheOkSizes(h, image, cache, cached);
    } else {
      var j :| h.ChunkForOffset(off) <= j <= h.ChunkForOffset(off + p - 1) && h.IsPresent(j);
      var image, cache, cached := AbsentPageFails(h, off, p, j);
      CacheOkSizes(h, image, cache, cached);
    }
  }

  lemma PageAllAbsent(h: Header, image: seq<byte>, cache: seq<byte>, cached: seq<bool>, off: nat, p: nat)
    requires CacheOk(h, image, cache, cached) && off + p <= |image| && p > 0 && NonePresent(h, off, p)
    ensures Page(h, cache, off, p) == image[off..off + p]
  {
    hide Header.Span, Header.NumChunks;
    h.ChunkForOffsetMono(off, off + p - 1);
    AbsentRangeIsZero(h, image, off, p);
  }

  lemma CacheOkSizes(h: Header, image: seq<byte>, cache: seq<byte>, cached: seq<bool>)
    requires CacheOk(h, image, cache, cached)
    ensures h.totalSize == |image| == |cache| && |cached| == |h.present|
  {
  }

  /** Page-aligned pages whose size divides the chunk size never straddle. */
  lemma AlignedPageIsOneChunk(h: Header, page: nat, off: nat, p: nat)
    requires h.Sane() && page > 0 && h.chunkSize % page == 0 && off % page == 0 && p <= page
    ensures OneChunk(h, off, p)
  {
    hide Header.NumChunks;
    if p > 0 {
      var k, q, c := h.chunkSize / page, off / page, off / h.chunkSize;
      DivBounds(off, h.chunkSize);
      assert h.chunkSize == k * page && off == q * page;
      PagesInChunk(k, q, c, page);
      QuotientIs(off + p - 1, h.chunkSize, c);
    }
  }

  /** A page that starts before the end of chunk c ends by it. */
  lemma PagesInChunk(k: nat, q: nat, c: nat, page: nat)
    requires q * page < c * (k * page) + k * page
    ensures q * page + page <= (c + 1) * (k * page)
  {
    assert c * (k * page) + k * page == ((c + 1) * k) * page;
    LtMul(q, (c + 1) * k, page);
    MulLe(q + 1, (c + 1) * k, page);
    assert (q + 1) * page == q * page + page;
  }

  lemma LtMul(a: nat, b: nat, m: nat)
    requires a * m < b * m
    ensures a < b
  {
    if b <= a { MulLe(b, a, m); }
  }

  lemma QuotientIs(a: nat, b: nat, q: nat)
    requires b > 0 && q * b <= a < (q + 1) * b
    ensures a / b == q
  {
    DivBounds(a, b);
    if a / b < q { MulLe(a / b + 1, q, b); } else if a / b > q { MulLe(q + 1, a / b, b); }
    assert (a / b + 1) * b == (a / b) * b + b;
  }

  /** The cache file with the first k bytes of chunk c written from the source. */
  function Filled(h: Header, source: seq<byte>, cache: seq<byte>, c: nat, k: nat): (r: seq<byte>)
    requires h.Sane() && h.totalSize == |source| == |cache| && c < h.NumChunks() && k <= h.Span(c).1
    ensures |r| == |cache|
  {
    h.TilesAt(c);
    cache[..h.Lo(c)] + source[h.Lo(c)..h.Lo(c) + k] + cache[h.Lo(c) + k..]
  }

  /** A write into a chunk nobody trusts keeps the cache good; a whole chunk may then be trusted. */
  lemma FilledKeeps(h: Header, source: seq<byte>, cache: seq<byte>, cached: seq<bool>, c: nat, k: nat)
    requires CacheOk(h, source, cache, cached) && c < |cached| && !cached[c] && k <= h.Span(c).1
    ensures CacheOk(h, source, Filled(h, source, cache, c, k), cached)
    ensures k == h.Span(c).1 ==> CacheOk(h, source, Filled(h, source, cache, c, k), cached[c := true])
  {
    hide Header.Span, Header.NumChunks;
    var r := Filled(h, source, cache, c, k);
    h.TilesAt(c);
    forall i | 0 <= i < |cached| && i != c ensures h.Slice(r, i) == h.Slice(cache, i) {
      h.TilesAt(i);
      if i < c { h.Disjoint(i, c); } else { h.Disjoint(c, i); }
    }
    if k == h.Span(c).1 {
      assert h.Slice(r, c) == h.Slice(source, c);
    }
  }

  class Resolver {
    const h: Header
    /** What the chunk source serves: the memory image itself. It may fail or be short, but it does not lie. */
    const source: seq<byte>
    var cache: seq<byte>
    var cached: seq<bool>
    /** How often the outside failed a caller: a source that failed or was short, a failed read or write, a wait that ended
        without the chunk. */
    ghost var faults: nat

    ghost predicate Valid()
      reads this
    {
      CacheOk(h, source, cache, cached) && h.Fits()
    }

    /** The file keeps whatever it held; no chunk of it is trusted. */
    constructor (h: Header, source: seq<byte>, file: seq<byte>)
      requires h.Sane() && h.Fits() && h.totalSize == |source| == |file| && AbsentAreZero(h, source)
      ensures Valid() && this.h == h && this.source == source && cache == file
      ensures forall i :: 0 <= i < |cached| ==> !cached[i]
    {
      this.h, this.source := h, source;
      cache, cached := file, seq(|h.present|, _ => false);
    }

    /** Other goroutines write into chunks that are not cached, and mark the ones they finish. Nobody writes into a
        chunk whose flight the caller leads. */
    method Interfere(mine: int)
      requires Valid()
      modifies this
      ensures Valid() && SubsetOf(old(cached), cached) && faults == old(faults)
      ensures 0 <= mine < |cached| ==> cached[mine] == old(cached)[mine]
    {
      hide Header.Span, Header.NumChunks, Header.Slice;
      var n: nat := *;
      while n > 0
        invariant Valid() && SubsetOf(old(cached), cached) && faults == old(faults)
        invariant 0 <= mine < |cached| ==> cached[mine] == old(cached)[mine]
      {
        var c: nat, k: nat := *, *;
        if c < |cached| && !cached[c] && c != mine {
          h.TilesAt(c);
          k := Min(k, h.Span(c).1);
          FilledKeeps(h, source, cache, cached, c, k);
          cache := Filled(h, source, cache, c, k);
          if k == h.Span(c).1 {
            cached := cached[c := true];
          }
        }
        n := n - 1;
      }
    }

    /** A call to the outside. */
    method Works() returns (ok: bool)
      modifies this`faults
      ensures faults == old(faults) + if ok then 0 else 1
    {
      ok := *;
      faults := faults + if ok then 0 else 1;
    }

    /** Another goroutine's flight of the chunk, if there is one, and whether it left the chunk cached. */
    method WaitForFlight(idx: nat) returns (inFlight: bool)
      requires Valid() && idx < |cached| && !cached[idx]
      modifies this
      ensures Valid() && SubsetOf(old(cached), cached)
      ensures inFlight ==> faults == old(faults) + if cached[idx] then 0 else 1
      ensures !inFlight ==> !cached[idx] && faults == old(faults)
    {
      inFlight := *;
      if inFlight {
        Interfere(-1);
        faults := faults + if cached[idx] then 0 else 1;
      }
    }

    /** fetchChunk: one source read, one cache write; an error or a short read leaves the chunk untrusted, and there is no
        other reason to fail. */
    method FetchChunk(idx: nat) returns (ok: bool)
      requires Valid() && idx < |cached| && !cached[idx]
      modifies this
      ensures Valid() && SubsetOf(old(cached), cached) && !cached[idx]
      ensures ok ==> h.Slice(cache, idx) == h.Slice(source, idx)
      ensures faults == old(faults) + if ok then 0 else 1
    {
      hide Header.Span, Header.ChunkRange, Header.Fits, Header.NumChunks;
      h.TilesAt(idx);
      h.FetchedIsSpan(idx);
      var (off, length) := h.ChunkRange(idx);
      var answered := Works();
      Interfere(idx);
      if !answered {
        return false;
      }
      var wrote := Works();
      var n: int := *;
      var k := if wrote || n < 0 then length else Min(n, length);
      FilledKeeps(h, source, cache, cached, idx, k);
      cache := Filled(h, source, cache, idx, k);
      assert k == length ==> h.Slice(cache, idx) == h.Slice(source, idx);
      ok := wrote;
    }

    /** ensureChunk: a nil answer means the chunk is the image's, whether it was cached, waited for or fetched. A cached one is
        nil at once, and a failure has its cause outside. */
    method EnsureChunk(idx: nat) returns (ok: bool)
      requires Valid() && h.IsPresent(idx)
      modifies this
      ensures Valid() && SubsetOf(old(cached), cached)
      ensures ok <==> cached[idx]
      ensures old(cached)[idx] ==> ok && cache == old(cache)
      ensures faults == old(faults) + if ok then 0 else 1
    {
      hide Header.Span, Header.NumChunks, Header.Slice;
      if cached[idx] {
        return true;
      }
      var inFlight := WaitForFlight(idx);
      if inFlight {
        return cached[idx];
      }
      ok := FetchChunk(idx);
      if ok {
        cached := cached[idx := true];
      }
    }

    /** ResolvePage: in range, it fails only if the outside failed it; success fills dst up to the end of the image and leaves the rest of it alone. Of a page
        inside one chunk these are the image's bytes, whatever the cache file held before. */
    method ResolvePage(off: int, dst: array<byte>) returns (ok: bool)
      requires Valid()
      modifies this, dst
      ensures Valid() && SubsetOf(old(cached), cached)
      ensures ok ==> 0 <= off < h.totalSize
      ensures faults >= old(faults) && (!ok && 0 <= off < h.totalSize ==> faults > old(faults))
      ensures ok ==>
        var p := Min(dst.Length, h.totalSize - off);
        && dst[p..] == old(dst[..])[p..] && dst[..p] == Page(h, cache, off, p)
        && (OneChunk(h, off, p) ==> dst[..p] == source[off..off + p])
    {
      hide Header.Span, Header.NumChunks, Header.Slice, Header.ChunkForOffset, OneChunk;
      if off < 0 || off >= h.totalSize {
        return false;
      }
      var plen := dst.Length;
      if off + plen > h.totalSize {
        plen := h.totalSize - off;
      }
      h.OffsetInChunk(off);
      var chunk := h.ChunkForOffset(off);
      if h.IsPresent(chunk) {
        ok := EnsureChunk(chunk);
        if !ok {
          return;
        }
        var read := Works();
        if !read {
          return false;
        }
      }
      ghost var page := Page(h, cache, off, plen);
      for i := 0 to plen
        modifies dst
        invariant dst[..i] == page[..i] && dst[plen..] == old(dst[..])[plen..]
      {
        dst[i] := if h.IsPresent(chunk) then cache[off + i] else 0;
        assert page[..i + 1] == page[..i] + [page[i]];
      }
      assert dst[..plen] == page;
      if plen > 0 && OneChunk(h, off, plen) {
        PageIsImage(h, source, cache, cached, off, plen);
      }
      ok := true;
    }
  }
}
