/** The per-device resolver as running code, over the shared cache or straight over an untrusted source
    (diskstream/resolver.go). Other goroutines run steps of ResolverMachine between any two steps below. */
module Resolvers {
  import opened Bytes
  import opened Geometry
  import opened Elision
  import opened CacheMachine
  import opened ResolverMachine
  import SharedCaches
  import CacheSafety

  /** What a Resolver reads from: the per-host cache, or an upstream that may fail, be short or lie. */
  datatype ChunkSource = Direct | Shared(cache: SharedCaches.SharedCache)

  /** What other goroutines can do while caller `me` is inside ensureChunk. */
  ghost predicate RLater(s: RState, s': RState, me: nat) {
    && SubsetOf(s.cached, s'.cached)
    && (me in s.callers ==> me in s'.callers && s'.callers[me] == s.callers[me])
    && (LeadsFlight(s, me) ==> LeadsFlight(s', me) && FlightOf(s', me) == FlightOf(s, me))
    && (me !in s.callers ==> me !in s'.callers)
  }

  predicate RForeign(e: REvent, me: nat) { e.c != me }

  lemma RForeignStep(h: Header, image: seq<byte>, sha: Hash, s: RState, e: REvent, me: nat)
    requires Baked(h, image, sha) && RInv(h, image, s) && RForeign(e, me)
    ensures RInv(h, image, RStep(h, sha, s, e))
    ensures RLater(s, RStep(h, sha, s, e), me)
  {
    hide RInv, RStep, AllZero, Unforgeable, DigestsMatch;
    RStepKeepsInv(h, image, sha, s, e);
    CachedGrows(h, sha, s, e);
    CallersKept(h, image, sha, s, e, me);
  }

  /** Nobody else's step moves a caller or touches the flight it leads. */
  lemma CallersKept(h: Header, image: seq<byte>, sha: Hash, s: RState, e: REvent, me: nat)
    requires h.Sane() && h.totalSize == |image| && RInv(h, image, s) && RForeign(e, me)
    ensures var s' := RStep(h, sha, s, e);
      && (me in s.callers ==> me in s'.callers && s'.callers[me] == s.callers[me])
      && (LeadsFlight(s, me) ==> LeadsFlight(s', me) && FlightOf(s', me) == FlightOf(s, me))
      && (me !in s.callers ==> me !in s'.callers)
  {
    hide FileOk, CallersOk, Accepts, WriteFile, Header.Span, Header.NumChunks;
  }

  lemma RLaterTrans(a: RState, b: RState, c: RState, me: nat)
    requires RLater(a, b, me) && RLater(b, c, me)
    ensures RLater(a, c, me)
  {
  }

  class Resolver {
    const h: Header
    const sha: Hash
    ghost const image: seq<byte>
    const src: ChunkSource
    var cache: seq<byte>
    var cached: seq<bool>
    var inflight: map<nat, Fetch>
    var fetchErr: map<nat, FetchError>
    var closed: set<nat>
    var callers: map<nat, Caller>
    var readCalls: nat
    var fetches: nat
    var zeroFill: nat
    var verifyErr: nat
    /** How often the outside failed a caller of this object's methods: a source answer that is not the chunk, a failed
        read or write, a cancelled context, another caller's fetch that was waited for and failed. */
    ghost var faults: nat

    function View(): RState
      reads this
    {
      RState(cache, cached, inflight, fetchErr, closed, callers)
    }

    ghost function Repr(): set<object> {
      if src.Shared? then {this, src.cache} else {this}
    }

    ghost predicate Valid()
      reads this, Repr()
    {
      && Baked(h, image, sha) && RInv(h, image, View())
      && (src.Shared? ==> src.cache.Valid() && src.cache.h == h && src.cache.sha == sha && src.cache.image == image)
    }

    /** NewResolver: the file is sized to the image but keeps old contents, so the caller must hand over one
        that already serves the header-absent chunks. */
    constructor (h: Header, sha: Hash, ghost image: seq<byte>, src: ChunkSource, file: seq<byte>)
      requires Baked(h, image, sha) && |file| == h.totalSize
      requires forall i :: 0 <= i < |h.present| && !h.present[i] ==> h.Slice(file, i) == h.Slice(image, i)
      requires src.Shared? ==> src.cache.Valid() && src.cache.h == h && src.cache.sha == sha && src.cache.image == image
      ensures Valid() && this.h == h && this.image == image && this.src == src && verifyErr == 0
    {
      hide Header.Slice, Header.NumChunks, RInv, Unforgeable, DigestsMatch, AllZero;
      this.h, this.sha, this.image, this.src := h, sha, image, src;
      cache, cached := file, seq(|h.present|, _ => false);
      inflight, fetchErr, closed, callers := map[], map[], {}, map[];
      readCalls, fetches, zeroFill, verifyErr := 0, 0, 0, 0;
      new;
      NewResolverOk(h, image, file);
    }

    /** Any number of steps of other goroutines, here and in the shared cache. */
    method Interfere(me: nat)
      requires Valid()
      modifies Repr()
      ensures Valid() && RLater(old(View()), View(), me)
      ensures verifyErr == old(verifyErr) && faults == old(faults)
    {
      hide RInv, RStep, Unforgeable, DigestsMatch, AllZero, Header.Slice, RLater, Inv;
      if src.Shared? { src.cache.Interfere({}, false); }
      var n: nat := *;
      RLaterRefl(View(), me);
      while n > 0
        invariant Valid() && RLater(old(View()), View(), me)
        invariant verifyErr == old(verifyErr) && faults == old(faults)
      {
        var e: REvent := *;
        if RForeign(e, me) {
          RForeignStep(h, image, sha, View(), e, me);
          var s := RStep(h, sha, View(), e);
          RLaterTrans(old(View()), View(), s, me);
          cache, cached, inflight, fetchErr, closed, callers := s.data, s.cached, s.inflight, s.fetchErr, s.closed, s.callers;
        }
        n := n - 1;
      }
    }

    /** A call to the outside. */
    method Works() returns (ok: bool)
      modifies this`faults
      ensures faults == old(faults) + if ok then 0 else 1
    {
      ok := *;
      faults := faults + if ok then 0 else 1;
    }

    /** The select: either the channel is closed by now, or the context is cancelled first. What was waited for is the
        chunk. */
    method WaitFor(idx: nat, ch: nat) returns (woken: bool)
      requires idx < |cached|
      modifies this`faults
      ensures woken ==> ch in closed
      ensures faults == old(faults) + if woken && cached[idx] then 0 else 1
    {
      var alive: bool := *;
      woken := alive && ch in closed;
      faults := faults + if woken && cached[idx] then 0 else 1;
    }

    /** src.ReadAt into a fresh buffer. Over the shared cache a success is always the image's bytes, and a failure has its
        cause there. */
    method AskSource(off: nat, length: nat, patience: nat) returns (buf: seq<byte>, n: nat, failed: bool)
      requires Valid() && 0 < length && off + length <= h.totalSize
      modifies Repr()
      ensures Valid() && View() == old(View()) && verifyErr == old(verifyErr)
      ensures |buf| == length && n <= length
      ensures src.Shared? && !failed ==> n == length && buf == image[off..off + length]
      ensures src.Shared? && failed ==> src.cache.faults > old(src.cache.faults)
      ensures faults == old(faults) + if !failed && n == length && buf == image[off..off + length] then 0 else 1
    {
      hide RInv, Unforgeable, DigestsMatch, AllZero, Header.Slice, Inv, Header.NumChunks, Header.Span;
      if src.Shared? {
        var p := new byte[length](_ => 0);
        var r;
        n, r := src.cache.ReadAt(p, off, patience);
        failed := r.Failed?;
        buf := p[..];
        if failed { n := 0; }
        assert !failed ==> p[..n] == p[..];
      } else {
        buf := *;
        n := *;
        failed := *;
        if |buf| != length { buf := Zeros(length); }
        if n > length { n := length; }
      }
      faults := faults + if !failed && n == length && buf == image[off..off + length] then 0 else 1;
    }

    /** fetchChunk: verify, then write to the cache file. Over the shared cache the digest check never fails. */
    method FetchChunk(me: nat, idx: nat, patience: nat) returns (r: Answer)
      requires Valid() && me in callers && callers[me] == Leading(idx) && idx in inflight && FlightOf(View(), me) == Asking
      modifies Repr()
      ensures Valid() && SubsetOf(old(cached), cached)
      ensures me in callers && callers[me] == Leading(idx) && idx in inflight
      ensures r.Nil? ==> FlightOf(View(), me).Filling? && FlightOf(View(), me).done == |FlightOf(View(), me).buf|
      ensures src.Shared? ==> r != Err(Integrity) && verifyErr == old(verifyErr)
      ensures faults >= old(faults) && (r.Err? ==> faults > old(faults))
    {
      hide Header.NumChunks, Header.Span, Header.ChunkRange, Header.Fits, RInv, Unforgeable, DigestsMatch, AllZero, Header.Slice, Inv, WriteDisk;
      RFacts(h, image, View(), idx);
      h.FetchedIsSpan(idx);
      var (off, length) := h.ChunkRange(idx);
      ghost var s0, before := View(), faults;
      h.TilesAt(idx);
      var buf, n, failed := AskSource(off, length, patience);
      if faults == before { HonestPasses(h, image, sha, idx, buf); }
      Interfere(me);
      if failed { return Err(SourceFailed); }
      if n < length { return Err(Short); }
      assert buf[..n] == buf;
      if src.Shared? { HonestPasses(h, image, sha, idx, buf); }
      if sha(buf[..n]) != h.blockSHA[idx] {
        verifyErr := verifyErr + 1;
        return Err(Integrity);
      }
      ghost var s := View();
      RStepKeepsInv(h, image, sha, s, REvent.Verify(me, buf));
      RFacts(h, image, s, idx);
      inflight := inflight[idx := inflight[idx].(flight := Filling(buf, 0))];
      assert View() == RApply(h, sha, s, REvent.Verify(me, buf));
      r := WriteChunk(me, idx);
    }

    /** cache.WriteAt: any number of partial writes, failing anywhere. */
    method WriteChunk(me: nat, idx: nat) returns (r: Answer)
      requires Valid() && me in callers && callers[me] == Leading(idx) && idx in inflight && FlightOf(View(), me).Filling?
      modifies Repr()
      ensures Valid() && SubsetOf(old(cached), cached) && verifyErr == old(verifyErr)
      ensures me in callers && callers[me] == Leading(idx) && idx in inflight
      ensures r == Nil || r == Err(WriteFailed)
      ensures faults == old(faults) + if r.Err? then 1 else 0
      ensures r.Nil? ==> FlightOf(View(), me).Filling? && FlightOf(View(), me).done == |FlightOf(View(), me).buf|
    {
      hide Header.NumChunks, Header.Span, RInv, Unforgeable, DigestsMatch, AllZero, Header.Slice, Inv, WriteDisk;
      RFlightFacts(h, image, View(), idx);
      while inflight[idx].flight.done < |inflight[idx].flight.buf|
        invariant Valid() && SubsetOf(old(cached), cached) && verifyErr == old(verifyErr) && faults == old(faults)
        invariant me in callers && callers[me] == Leading(idx) && idx in inflight && inflight[idx].flight.Filling?
        invariant idx < |h.present| && inflight[idx].flight.done <= |inflight[idx].flight.buf| == h.Span(idx).1
        invariant |cache| == h.totalSize
        decreases |inflight[idx].flight.buf| - inflight[idx].flight.done
      {
        ghost var s := View();
        var f := inflight[idx].flight;
        var ok := Works();
        if !ok { return Err(WriteFailed); }
        var k: nat := *;
        if !(1 <= k <= |f.buf| - f.done) { k := |f.buf| - f.done; }
        RStepKeepsInv(h, image, sha, s, REvent.Write(me, k));
        cache := WriteFile(h, cache, idx, f, k);
        inflight := inflight[idx := inflight[idx].(flight := f.(done := f.done + k))];
        assert View() == RApply(h, sha, s, REvent.Write(me, k));
        Interfere(me);
        RFlightFacts(h, image, View(), idx);
      }
      fetches := fetches + 1;
      return Nil;
    }

    /** ensureChunk: single flight. A nil answer means the chunk is valid, whoever fetched it; a valid chunk is nil at once;
        an error has its cause outside. A call that finds the chunk neither valid nor in flight leaves no flight of it, and
        if it fails, the chunk invalid and its error on record. */
    method EnsureChunk(idx: int, patience: nat) returns (r: Answer)
      requires Valid() && h.IsPresent(idx)
      modifies Repr()
      ensures Valid() && SubsetOf(old(cached), cached)
      ensures 0 <= idx < |cached| == |old(cached)|
      ensures r.Nil? ==> cached[idx]
      ensures old(cached)[idx] ==> r.Nil?
      ensures faults >= old(faults) && (r.Err? ==> faults > old(faults))
      ensures idx !in old(inflight) ==>
        idx !in inflight && (r.Err? ==> !cached[idx] && idx in fetchErr && fetchErr[idx] == r.error)
      ensures src.Shared? ==> verifyErr == old(verifyErr)
    {
      hide Header.NumChunks, Header.Span, RInv, Unforgeable, DigestsMatch, AllZero, Header.Slice, Inv, RStep, REnabled;
      FileLen(h, image, View());
      if idx < 0 || idx >= |cached| { return Err(OutOfRange); }
      var me: nat :| me !in callers by { FreshId(callers); }
      ghost var s := View();
      EnterKeeps(h, image, s, me, idx);
      if cached[idx] {
        CachedIsNotInFlight(h, image, s, idx);
        callers := callers[me := Returned(idx, Nil)];
        assert View() == EnterSection(s, me, idx);
        return Nil;
      }
      if idx in inflight {
        var ch := inflight[idx].ch;
        callers := callers[me := Waiting(idx, ch)];
        assert View() == EnterSection(s, me, idx);
        var woken;
        r, woken := Await(me, idx, ch);
        return;
      }
      inflight := inflight[idx := Fetch(me, Asking)];
      callers := callers[me := Leading(idx)];
      assert View() == EnterSection(s, me, idx);
      r := Lead(me, idx, patience);
    }

    /** The fetch of a leader and its last critical section: whatever the answer, the fetch is no longer registered and its
        channel is closed. */
    method Lead(me: nat, idx: nat, patience: nat) returns (r: Answer)
      requires Valid() && me in callers && callers[me] == Leading(idx) && idx in inflight && FlightOf(View(), me) == Asking
      modifies Repr()
      ensures Valid() && SubsetOf(old(cached), cached)
      ensures idx < |cached| && (r.Nil? <==> cached[idx])
      ensures idx !in inflight && me in closed && me in callers && callers[me] == Returned(idx, r)
      ensures r.Err? ==> idx in fetchErr && fetchErr[idx] == r.error
      ensures faults >= old(faults) && (r.Err? ==> faults > old(faults))
      ensures src.Shared? ==> verifyErr == old(verifyErr)
    {
      hide Header.NumChunks, Header.Span, RInv, Unforgeable, DigestsMatch, AllZero, Header.Slice, Inv, RStep, REnabled;
      r := FetchChunk(me, idx, patience);
      ghost var t := View();
      RFacts(h, image, t, idx);
      FinishKeeps(h, image, t, me, r);
      if r.Nil? {
        cached := cached[idx := true];
        fetchErr := fetchErr - {idx};
      } else {
        fetchErr := fetchErr[idx := r.error];
      }
      inflight := inflight - {idx};
      closed := closed + {me};
      callers := callers[me := Returned(idx, r)];
      assert View() == FinishSection(t, me, r);
    }

    /** The select on the channel and the context, then the waiter's critical section: a waiter that was woken is told nil
        exactly when the chunk is valid, and otherwise the recorded error. */
    method Await(me: nat, idx: nat, ch: nat) returns (r: Answer, woken: bool)
      requires Valid() && me in callers && callers[me] == Waiting(idx, ch)
      modifies Repr()
      ensures Valid() && SubsetOf(old(cached), cached) && verifyErr == old(verifyErr)
      ensures idx < |cached| && me in callers && callers[me] == Returned(idx, r)
      ensures woken ==> ch in closed && (r.Nil? <==> cached[idx]) && (r.Err? ==> idx in fetchErr && r.error == fetchErr[idx])
      ensures !woken ==> r == Err(Cancelled)
      ensures faults == old(faults) + if r.Err? then 1 else 0
    {
      hide Header.NumChunks, Unforgeable, DigestsMatch, AllZero, Header.Slice, Inv, FileOk, RStep;
      Interfere(me);
      ghost var s := View();
      WakeKeeps(h, image, s, me);
      assert CallerOk(s, s.callers[me]);
      woken := WaitFor(idx, ch);
      if !woken {
        r := Err(Cancelled);
        callers := callers[me := Returned(idx, r)];
        return;
      }
      if cached[idx] { r := Nil; } else { r := Err(fetchErr[idx]); }
      callers := callers[me := Returned(idx, r)];
      assert View() == WakeSection(s, me);
    }

    /** ReadAt: a successful read is the image's bytes, zero past the end of the image. Inside the image it fails only if the
        outside failed it. */
    method ReadAt(dst: array<byte>, off: int, patience: nat) returns (n: nat, r: Answer)
      requires Valid()
      modifies Repr(), dst
      ensures Valid() && SubsetOf(old(cached), cached)
      ensures !(0 <= off < h.totalSize) ==> r == Err(OutOfRange)
      ensures r.Nil? ==>
        && 0 <= off < h.totalSize && n == Min(dst.Length, h.totalSize - off)
        && dst[..n] == image[off..off + n]
        && AllZero(dst[n..])
      ensures r.Err? ==> n == 0
      ensures faults >= old(faults) && (r.Err? && 0 <= off < h.totalSize ==> faults > old(faults))
      ensures src.Shared? ==> verifyErr == old(verifyErr)
    {
      hide Header.NumChunks, Header.Span, Header.ChunkForOffset, RInv, Unforgeable, DigestsMatch, Header.Slice, Inv;
      readCalls := readCalls + 1;
      if off < 0 || off >= h.totalSize { return 0, Err(OutOfRange); }
      var end := off + dst.Length;
      if end > h.totalSize {
        end := h.totalSize;
        for i := end - off to dst.Length
          modifies dst
          invariant forall k :: end - off <= k < i ==> dst[k] == 0
        {
          dst[i] := 0;
        }
      }
      ghost var tail := dst[end - off..];
      var first, last := h.ChunkForOffset(off), h.ChunkForOffset(end - 1);
      var c := first;
      while c <= last
        invariant first <= c
        invariant Valid() && SubsetOf(old(cached), cached) && faults >= old(faults)
        invariant dst[end - off..] == tail
        invariant forall j :: first <= j < c && h.IsPresent(j) ==> j < |cached| && cached[j]
        invariant src.Shared? ==> verifyErr == old(verifyErr)
      {
        if h.IsPresent(c) {
          r := EnsureChunk(c, patience);
          if r.Err? { return 0, r; }
        } else {
          zeroFill := zeroFill + 1;
        }
        c := c + 1;
      }
      r := CopyOut(dst, off, end, first, last);
      n := if r.Nil? then end - off else 0;
      assert dst[end - off..] == tail;
    }

    /** The final cache.ReadAt, one byte at a time with other goroutines running in between. */
    method CopyOut(dst: array<byte>, off: nat, end: nat, ghost first: int, ghost last: int) returns (r: Answer)
      requires Valid() && off <= end <= h.totalSize && end - off <= dst.Length
      requires first == h.ChunkForOffset(off) && last == h.ChunkForOffset(end - 1)
      requires forall j :: first <= j <= last && h.IsPresent(j) ==> j < |cached| && cached[j]
      modifies Repr(), dst
      ensures Valid() && SubsetOf(old(cached), cached) && verifyErr == old(verifyErr)
      ensures r.Nil? ==> dst[..end - off] == image[off..end]
      ensures faults == old(faults) + if r.Err? then 1 else 0
      ensures dst[end - off..] == old(dst[end - off..])
    {
      hide Header.NumChunks, Header.Span, Header.ChunkForOffset, RInv, Unforgeable, DigestsMatch, AllZero, Header.Slice, Inv;
      var k := 0;
      while k < end - off
        invariant 0 <= k <= end - off
        invariant Valid() && SubsetOf(old(cached), cached) && verifyErr == old(verifyErr) && faults == old(faults)
        invariant forall j :: first <= j <= last && h.IsPresent(j) ==> j < |cached| && cached[j]
        invariant dst[..k] == image[off..off + k]
        invariant dst[end - off..] == old(dst[end - off..])
      {
        var nobody: nat := *;
        Interfere(nobody);
        var ok := Works();
        if !ok { return Err(SourceFailed); }
        RResolvedServes(h, image, View(), off, end);
        dst[k] := cache[off + k];
        assert cache[off..end][k] == image[off..end][k];
        assert dst[..k + 1] == dst[..k] + [dst[k]];
        assert image[off..off + k + 1] == image[off..off + k] + [image[off + k]];
        k := k + 1;
      }
      return Nil;
    }
  }

  lemma RLaterRefl(s: RState, me: nat)
    ensures RLater(s, s, me)
  {
  }

  /** Some caller id is unused. */
  lemma FreshId(callers: map<nat, Caller>)
    ensures exists me: nat :: me !in callers
  {
    var m := MaxKey(callers.Keys);
    assert m !in callers;
  }

  lemma {:induction false} MaxKey(keys: set<nat>) returns (m: nat)
    ensures forall k :: k in keys ==> k < m
  {
    if keys == {} { return 0; }
    var k :| k in keys;
    m := MaxKey(keys - {k});
    if m <= k { m := k + 1; }
    assert keys == (keys - {k}) + {k};
  }

  lemma CachedIsNotInFlight(h: Header, image: seq<byte>, s: RState, idx: nat)
    requires h.Sane() && h.totalSize == |image| && RInv(h, image, s) && idx < |s.cached| && s.cached[idx]
    ensures idx !in s.inflight
  {
  }

  lemma RFlightFacts(h: Header, image: seq<byte>, s: RState, idx: nat)
    requires h.Sane() && h.totalSize == |image| && RInv(h, image, s) && idx in s.inflight && s.inflight[idx].flight.Filling?
    ensures idx < |h.present| && |s.data| == h.totalSize
    ensures s.inflight[idx].flight.done <= |s.inflight[idx].flight.buf| == h.Span(idx).1
  {
    hide Header.Span, Header.Slice;
    SliceLen(h, image, idx);
  }

  lemma RResolvedServes(h: Header, image: seq<byte>, s: RState, off: nat, end: nat)
    requires h.Sane() && h.totalSize == |image| && RInv(h, image, s) && off < end <= h.totalSize
    requires forall j :: h.ChunkForOffset(off) <= j <= h.ChunkForOffset(end - 1) && h.IsPresent(j) ==> j < |s.cached| && s.cached[j]
    ensures |s.data| == h.totalSize && s.data[off..end] == image[off..end]
  {
    hide Header.Slice, Header.ChunkForOffset, CallersOk, FetchesOk;
    CacheSafety.RangeServed(h, image, s.data, off, end);
  }

  // ---- which cache files will do ----

  /** What ReadAt makes sure of before it copies from the cache file: every present chunk of the range is cached. */
  ghost predicate Resolved(h: Header, s: RState, off: nat, end: nat)
    requires off < end
  {
    forall j :: h.ChunkForOffset(off) <= j <= h.ChunkForOffset(end - 1) && h.IsPresent(j) ==> j < |s.cached| && s.cached[j]
  }

  /** Whatever callers and sources do after a start on this file, a read that gets to copying copies the image's bytes. */
  ghost predicate ReadsRight(h: Header, image: seq<byte>, sha: Hash, file: seq<byte>)
    requires h.Sane() && h.totalSize == |image|
  {
    forall es: seq<REvent>, off: nat, end: nat ::
      var s := RExec(h, sha, NewResolver(h, file), es);
      off < end <= h.totalSize && |s.data| == h.totalSize && Resolved(h, s, off, end) ==> s.data[off..end] == image[off..end]
  }

  /** The files NewResolver may be given are exactly those that already serve the absent chunks: over any other file a read
      of an absent chunk, for which nothing is ever fetched, returns what the file held. */
  lemma ReadsRightIff(h: Header, image: seq<byte>, sha: Hash, file: seq<byte>)
    requires Baked(h, image, sha) && |file| == h.totalSize
    ensures ReadsRight(h, image, sha, file) <==>
      forall i :: 0 <= i < |h.present| && !h.present[i] ==> h.Slice(file, i) == h.Slice(image, i)
  {
    hide Header.Slice, Header.NumChunks, Header.ChunkForOffset, Header.Span, Header.Lo, Header.Hi, RInv, NewResolver, RStep, AllZero, Unforgeable, DigestsMatch;
    if forall i :: 0 <= i < |h.present| && !h.present[i] ==> h.Slice(file, i) == h.Slice(image, i) {
      NewResolverOk(h, image, file);
      forall es: seq<REvent>, off: nat, end: nat | off < end <= h.totalSize
          && |RExec(h, sha, NewResolver(h, file), es).data| == h.totalSize && Resolved(h, RExec(h, sha, NewResolver(h, file), es), off, end)
        ensures RExec(h, sha, NewResolver(h, file), es).data[off..end] == image[off..end]
      {
        hide RExec;
        RRunsKeepInv(h, image, sha, NewResolver(h, file), es);
        RResolvedServes(h, image, RExec(h, sha, NewResolver(h, file), es), off, end);
      }
    } else {
      var i :| 0 <= i < |h.present| && !h.present[i] && h.Slice(file, i) != h.Slice(image, i);
      StaleChunkRead(h, image, file, i);
      var es: seq<REvent>, off: nat, end: nat := [], h.Lo(i), h.Hi(i);
      var s := RExec(h, sha, NewResolver(h, file), es);
      assert s == NewResolver(h, file) && |s.data| == h.totalSize by { NewResolverSize(h, file); }
      assert Resolved(h, s, off, end) && s.data[off..end] != image[off..end];
    }
  }

  lemma NewResolverSize(h: Header, file: seq<byte>)
    requires h.Shaped() && |file| == h.totalSize
    ensures |NewResolver(h, file).data| == h.totalSize
  {
  }

  lemma StaleChunkRead(h: Header, image: seq<byte>, file: seq<byte>, i: nat)
    requires h.Sane() && h.totalSize == |image| == |file| && i < |h.present| && !h.present[i] && h.Slice(file, i) != h.Slice(image, i)
    ensures var (off, end) := (h.Lo(i), h.Hi(i));
            && 0 <= off < end <= h.totalSize
            && Resolved(h, NewResolver(h, file), off, end)
            && NewResolver(h, file).data[off..end] != image[off..end]
  {
    hide Header.ChunkForOffset, Header.NumChunks, Header.Span, Header.Lo, Header.Hi;
    h.TilesAt(i);
    h.ChunkUnique(i, h.Lo(i));
    h.ChunkUnique(i, h.Hi(i) - 1);
  }
}
