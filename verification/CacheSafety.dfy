/** What every run of the shared chunk cache guarantees. */
module CacheSafety {
  import opened Bytes
  import opened Geometry
  import opened Elision
  import opened CacheMachine

  /** The file serves the image wherever `bits` or the header's zero elision says it may be read. */
  ghost predicate Serves(h: Header, image: seq<byte>, data: seq<byte>, bits: seq<bool>)
    requires h.Sane() && h.totalSize == |image|
  {
    && |data| == h.totalSize && |bits| == |h.present|
    && forall i :: 0 <= i < |bits| && (bits[i] || !h.present[i]) ==> h.Slice(data, i) == h.Slice(image, i)
  }

  lemma {:induction false} RunsKeepInv(h: Header, image: seq<byte>, sha: Hash, s: State, es: seq<Event>)
    requires Baked(h, image, sha) && Inv(h, image, s)
    ensures Inv(h, image, Exec(h, sha, s, es))
  {
    hide Inv, Step, Unforgeable, DigestsMatch, AllZero;
    if es != [] {
      RunsKeepInv(h, image, sha, s, es[..|es| - 1]);
      StepKeepsInv(h, image, sha, Exec(h, sha, s, es[..|es| - 1]), es[|es| - 1]);
    }
  }

  lemma FreshDirOk(h: Header, image: seq<byte>)
    requires h.Sane() && h.totalSize == |image|
    ensures Inv(h, image, FRESH_DIR)
  {
  }

  /** Crash safety over whole runs. Whatever interleaving of fetches, flushes, kills, power losses and reopens led here:
      a running cache serves only image bytes, and after one more power loss, whatever it keeps or tears,
      so does every cache that a reopen would accept. */
  lemma NeverServesTornData(h: Header, image: seq<byte>, sha: Hash, es: seq<Event>)
    requires Baked(h, image, sha)
    ensures var s := Exec(h, sha, FRESH_DIR, es);
      && (s.proc.Up? ==> Serves(h, image, s.disk.data, s.proc.s.present))
      && forall data, cut | Enabled(h, sha, s, PowerLoss(data, cut)) ::
        var d := Apply(h, sha, s, PowerLoss(data, cut)).disk;
        ReadBits(h, d).Some? ==> Serves(h, image, d.data, ReadBits(h, d).value)
  {
    hide Step, Unforgeable, DigestsMatch, Exec, DurableBits, ReadBits, Header.Slice;
    FreshDirOk(h, image);
    RunsKeepInv(h, image, sha, FRESH_DIR, es);
    var s := Exec(h, sha, FRESH_DIR, es);
    forall data, cut | Enabled(h, sha, s, PowerLoss(data, cut))
      ensures var d := Apply(h, sha, s, PowerLoss(data, cut)).disk;
        ReadBits(h, d).Some? ==> Serves(h, image, d.data, ReadBits(h, d).value)
    {
      PowerLossKeepsInv(h, image, sha, s, data, cut);
    }
  }

  /** A crash only forgets: the chunks a reopened cache starts with were all valid before. */
  lemma CrashOnlyForgets(h: Header, image: seq<byte>, sha: Hash, s: State, crash: Event)
    requires Baked(h, image, sha) && Inv(h, image, s) && s.proc.Up?
    requires (crash.Kill? || crash.PowerLoss?) && Enabled(h, sha, s, crash)
    ensures var s' := Step(h, sha, Step(h, sha, s, crash), OpenWarm);
      s'.proc.Up? ==> SubsetOf(s'.proc.s.present, s.proc.s.present) && s'.proc.s.dirty == 0
  {
    hide HeaderCodec.DecodeBitmap, Header.Slice, Unforgeable, DigestsMatch;
    if crash.PowerLoss? && crash.cut.Some? && ReadBits(h, Step(h, sha, s, crash).disk).Some? {
      HeaderCodec.BitmapPrefix(h, s.disk.bitmap.value, crash.cut.value);
    }
  }

  /** The reset of OpenSharedCache ignores the result of removing the bitmap. If the removal fails, what a later reopen
      takes for valid is served as zeros: that is right exactly when every chunk the old bitmap marks is zero. */
  lemma FailedRemoveIff(h: Header, image: seq<byte>, sha: Hash, d: Disk)
    requires Baked(h, image, sha) && ReadBits(h, d).Some?
    ensures var d' := d.(data := Zeros(h.totalSize), wild := true, unsynced := {});
            && ReadBits(h, d') == ReadBits(h, d) && Enabled(h, sha, State(d', Down), OpenWarm)
            && (Serves(h, image, d'.data, ReadBits(h, d').value) <==>
                  forall i :: 0 <= i < |h.present| && ReadBits(h, d).value[i] ==> AllZero(h.Slice(image, i)))
  {
    hide HeaderCodec.DecodeBitmap, Header.Slice, Unforgeable, DigestsMatch, AllZero;
    BakedFacts(h, image, sha);
    var zeros := Zeros(h.totalSize);
    forall i | 0 <= i < |h.present|
      ensures !h.present[i] ==> h.Slice(zeros, i) == h.Slice(image, i)
      ensures h.Slice(zeros, i) == h.Slice(image, i) <==> AllZero(h.Slice(image, i))
    {
      ZeroSliceIff(h, image, i);
      if !h.present[i] {
        ZeroSlices(h, image, i);
      }
    }
  }

  lemma ZeroSliceIff(h: Header, image: seq<byte>, i: nat)
    requires h.Sane() && h.totalSize == |image| && i < |h.present|
    ensures h.Slice(Zeros(h.totalSize), i) == h.Slice(image, i) <==> AllZero(h.Slice(image, i))
  {
    hide Header.NumChunks, Header.Span;
    h.TilesAt(i);
    AllZeroIsZeros(h.Slice(Zeros(h.totalSize), i));
    if AllZero(h.Slice(image, i)) {
      AllZeroIsZeros(h.Slice(image, i));
    }
  }

  /** Outside a flush `dirty` is exactly the number of valid chunks that are not yet durable, so the early return at zero loses nothing. */
  lemma DirtyCountsUnflushed(h: Header, image: seq<byte>, sha: Hash, es: seq<Event>)
    requires Baked(h, image, sha)
    ensures var s := Exec(h, sha, FRESH_DIR, es);
      s.proc.Up? && s.proc.s.flush.NoFlush? ==>
        var dur := DurableBits(h, s.disk);
        && s.proc.s.dirty == Count(s.proc.s.present) - Count(dur) >= 0
        && (s.proc.s.dirty == 0 <==> dur == s.proc.s.present)
  {
    hide Step, Unforgeable, DigestsMatch, Exec, DiskOk, Header.Slice, Count;
    FreshDirOk(h, image);
    RunsKeepInv(h, image, sha, FRESH_DIR, es);
    var s := Exec(h, sha, FRESH_DIR, es);
    if s.proc.Up? { CountMono(DurableBits(h, s.disk), s.proc.s.present); }
  }

  /** The `dirty < 0` clamp after a flush is unreachable. */
  lemma ClampUnreachable(h: Header, image: seq<byte>, sha: Hash, es: seq<Event>)
    requires Baked(h, image, sha)
    ensures var s := Exec(h, sha, FRESH_DIR, es);
      s.proc.Up? && s.proc.s.flush.Renamed? ==> s.proc.s.dirty - s.proc.s.flush.acked >= 0
  {
    hide Inv, Step, Unforgeable, DigestsMatch, Exec;
    FreshDirOk(h, image);
    RunsKeepInv(h, image, sha, FRESH_DIR, es);
    var s := Exec(h, sha, FRESH_DIR, es);
    if s.proc.Up? && s.proc.s.flush.Renamed? { FlushKeepsInv(h, image, sha, s, Ack); }
  }

  /** Nothing stands in the way of a fetch whose upstream answers with the image's bytes: whatever else is going on, it
      registers, passes the digest check, is written and ends with the chunk valid and counted as dirty. */
  lemma HonestFetchCompletes(h: Header, image: seq<byte>, sha: Hash, s: State, i: nat)
    requires Baked(h, image, sha) && Inv(h, image, s) && s.proc.Up? && i < |h.present| && h.present[i]
    requires i < |s.proc.s.present| && !s.proc.s.present[i] && i !in s.proc.s.inflight
    ensures var buf := h.Slice(image, i);
      var s1 := Step(h, sha, s, Lead(i));
      var s2 := Step(h, sha, s1, Verify(i, buf));
      var s3 := Step(h, sha, s2, Write(i, |buf|));
      var s4 := Step(h, sha, s3, Finish(i, true));
      && s4.proc.Up? && i < |s4.proc.s.present| && s4.proc.s.present == s.proc.s.present[i := true]
      && s4.proc.s.dirty == s.proc.s.dirty + 1 && i !in s4.proc.s.inflight
  {
    hide Header.NumChunks, Header.Span, Unforgeable, DigestsMatch, AllZero, Accepts, WriteDisk;
    h.TilesAt(i);
    var buf := h.Slice(image, i);
    HonestPasses(h, image, sha, i, buf);
    SliceLen(h, image, i);
    assert |s.disk.data| == h.totalSize;
    hide Inv;
    var s1 := Step(h, sha, s, Lead(i));
    assert s1 == WithSession(s, s.proc.s.(inflight := s.proc.s.inflight[i := Asking]));
    var s2 := Step(h, sha, s1, Verify(i, buf));
    assert s2 == WithSession(s, s.proc.s.(inflight := s.proc.s.inflight[i := Asking][i := Filling(buf, 0)]));
    var s3 := Step(h, sha, s2, Write(i, |buf|));
    assert s3.proc.Up? && s3.proc.s.present == s.proc.s.present && s3.proc.s.dirty == s.proc.s.dirty;
    assert i in s3.proc.s.inflight && s3.proc.s.inflight[i] == Filling(buf, |buf|);
  }

  // ---- Close ----

  predicate IsFetch(e: Event) { e.Lead? || e.Verify? || e.Write? || e.Finish? }

  /** The events of a run that are not a fetch's. */
  function Others(es: seq<Event>): seq<Event> {
    if es == [] then []
    else
      var rest, e := Others(es[..|es| - 1]), es[|es| - 1];
      if IsFetch(e) then rest else rest + [e]
  }

  /** The flush of Close after its snapshot. */
  const AFTER_SNAPSHOT: seq<Event> := [SyncBegin, SyncEnd, Rename, Ack]

  predicate Completes(h: Header, sha: Hash, s: State, e: Event)
    requires h.Sane()
  {
    e.Finish? && e.ok && Enabled(h, sha, s, e)
  }

  /** How many chunks become valid in a run. */
  function Completed(h: Header, sha: Hash, s: State, es: seq<Event>): nat
    requires h.Sane()
  {
    if es == [] then 0
    else
      var k := |es| - 1;
      Completed(h, sha, s, es[..k]) + if Completes(h, sha, Exec(h, sha, s, es[..k]), es[k]) then 1 else 0
  }

  /** A flush with snapshot p, k of whose steps after the snapshot are done (4: no flush is left), n chunks later. */
  ghost predicate FlushAt(h: Header, s: State, p: seq<bool>, acked: int, k: nat, n: nat)
    requires h.Shaped()
  {
    && s.proc.Up? && |p| == |h.present| && SubsetOf(p, s.proc.s.present) && Count(s.proc.s.present) == Count(p) + n
    && s.proc.s.dirty == n + (if k < 4 then acked else 0)
    && (k >= 3 ==> DurableBits(h, s.disk) == p && (acked != 0 ==> s.disk.bitmap == Some(HeaderCodec.EncodeBitmap(h, p))))
    && match s.proc.s.flush
       case NoFlush => k == 4
       case Snapped(bits, a) => k == 0 && bits == p && a == acked
       case Syncing(bits, a, _) => k == 1 && bits == p && a == acked
       case Synced(bits, a) => k == 2 && bits == p && a == acked
       case Renamed(bits, a) => k == 3 && bits == p && a == acked
  }

  lemma FetchKeepsFlush(h: Header, image: seq<byte>, sha: Hash, s: State, e: Event, p: seq<bool>, acked: int, k: nat, n: nat)
    requires Baked(h, image, sha) && Inv(h, image, s) && FlushAt(h, s, p, acked, k, n) && IsFetch(e)
    ensures FlushAt(h, Step(h, sha, s, e), p, acked, k, n + if Completes(h, sha, s, e) then 1 else 0)
  {
    hide Header.NumChunks, Header.Span, Count, HeaderCodec.DecodeBitmap, Unforgeable, DigestsMatch, DiskOk, Accepts, Splice;
    if Completes(h, sha, s, e) {
      CountUpdate(s.proc.s.present, e.idx);
    }
  }

  lemma FlushGoesOn(h: Header, image: seq<byte>, sha: Hash, s: State, p: seq<bool>, acked: int, k: nat, n: nat)
    requires Baked(h, image, sha) && Inv(h, image, s) && FlushAt(h, s, p, acked, k, n) && k < 4
    ensures FlushAt(h, Step(h, sha, s, AFTER_SNAPSHOT[k]), p, acked, k + 1, n)
  {
    hide Header.NumChunks, Header.Span, Count, HeaderCodec.DecodeBitmap, HeaderCodec.EncodeBitmap, Unforgeable, DigestsMatch, Inv;
    if k == 2 {
      BakedFacts(h, image, sha);
      HeaderCodec.BitmapRoundTrip(h, p, HeaderCodec.EncodeBitmap(h, p));
    }
  }

  /** One event of such a run: a fetch's, or the flush's next. */
  lemma FlushRunStep(h: Header, image: seq<byte>, sha: Hash, s: State, e: Event, p: seq<bool>, acked: int, k: nat, n: nat)
    requires Baked(h, image, sha) && Inv(h, image, s) && FlushAt(h, s, p, acked, k, n)
    requires !IsFetch(e) ==> k < 4 && e == AFTER_SNAPSHOT[k]
    ensures FlushAt(h, Step(h, sha, s, e), p, acked, if IsFetch(e) then k else k + 1, n + if Completes(h, sha, s, e) then 1 else 0)
  {
    BakedFacts(h, image, sha);
    hide Inv, Step, Baked, FlushAt, Completes;
    if IsFetch(e) {
      FetchKeepsFlush(h, image, sha, s, e, p, acked, k, n);
    } else {
      FlushGoesOn(h, image, sha, s, p, acked, k, n);
      AfterSnapshotIsNoFetch(h, sha, s, k);
    }
  }

  lemma {:induction false} FlushRun(h: Header, image: seq<byte>, sha: Hash, s: State, es: seq<Event>, p: seq<bool>, acked: int, k: nat)
    requires Baked(h, image, sha) && Inv(h, image, s) && FlushAt(h, s, p, acked, k, 0) && InOrder(Others(es), k)
    ensures FlushAt(h, Exec(h, sha, s, es), p, acked, k + |Others(es)|, Completed(h, sha, s, es))
    decreases |es|
  {
    hide Inv, Step, Baked, FlushAt, Completes;
    BakedFacts(h, image, sha);
    if es != [] {
      var rest, e := es[..|es| - 1], es[|es| - 1];
      if !IsFetch(e) {
        NextAfterSnapshot(Others(rest), e, k);
      }
      FlushRun(h, image, sha, s, rest, p, acked, k);
      RunsKeepInv(h, image, sha, s, rest);
      FlushRunStep(h, image, sha, Exec(h, sha, s, rest), e, p, acked, k + |Others(rest)|, Completed(h, sha, s, rest));
    }
  }

  /** The steps after the snapshot, from the k-th on, as far as they go. */
  predicate InOrder(os: seq<Event>, k: nat) {
    k + |os| <= 4 && forall j :: 0 <= j < |os| ==> os[j] == AFTER_SNAPSHOT[k + j]
  }

  lemma NextAfterSnapshot(done: seq<Event>, e: Event, k: nat)
    requires InOrder(done + [e], k)
    ensures InOrder(done, k) && k + |done| < 4 && AFTER_SNAPSHOT[k + |done|] == e
  {
    assert e == (done + [e])[|done|] && forall j :: 0 <= j < |done| ==> done[j] == (done + [e])[j];
  }

  lemma AfterSnapshotIsNoFetch(h: Header, sha: Hash, s: State, k: nat)
    requires h.Sane() && k < 4
    ensures !Completes(h, sha, s, AFTER_SNAPSHOT[k]) && |AFTER_SNAPSHOT| == 4
  {
  }

  /** What Close does, with fetches of other goroutines anywhere in between: nothing when nothing is dirty, otherwise a
      snapshot and the four steps after it. */
  predicate Closes(c: Session, es: seq<Event>) {
    if c.dirty == 0 then Others(es) == []
    else |es| > 0 && es[0] == FlushBegin && Others(es[1..]) == AFTER_SNAPSHOT
  }

  /** A Close that completes persists the chunks that were valid when it began. Fetches do not wait for it: what is not
      persisted, and what dirty counts, is the chunks that became valid since; the valid set and the persisted one are the
      same exactly when there are none. */
  lemma CleanClosePersists(h: Header, image: seq<byte>, sha: Hash, s: State, es: seq<Event>)
    requires Baked(h, image, sha) && Inv(h, image, s) && s.proc.Up? && s.proc.s.flush.NoFlush? && Closes(s.proc.s, es)
    ensures var (s', n) := (Exec(h, sha, s, es), Completed(h, sha, s, es));
      && Inv(h, image, s') && s'.proc.Up? && s'.proc.s.flush.NoFlush? && s'.proc.s.dirty == n
      && DurableBits(h, s'.disk) == s.proc.s.present
      && (s.proc.s.dirty != 0 ==> s'.disk.bitmap == Some(HeaderCodec.EncodeBitmap(h, s.proc.s.present)))
      && (s'.proc.s.present == s.proc.s.present <==> n == 0)
  {
    hide Inv, Step, Baked, Count, Exec, Completed, Header.NumChunks, HeaderCodec.EncodeBitmap, DurableBits, Closes;
    BakedFacts(h, image, sha);
    RunsKeepInv(h, image, sha, s, es);
    CloseEnds(h, image, sha, s, es);
    CountMono(s.proc.s.present, Exec(h, sha, s, es).proc.s.present);
  }

  lemma CloseEnds(h: Header, image: seq<byte>, sha: Hash, s: State, es: seq<Event>)
    requires Baked(h, image, sha) && Inv(h, image, s) && s.proc.Up? && s.proc.s.flush.NoFlush? && Closes(s.proc.s, es)
    ensures h.Shaped() && FlushAt(h, Exec(h, sha, s, es), s.proc.s.present, s.proc.s.dirty, 4, Completed(h, sha, s, es))
  {
    hide Inv, Step, Baked, FlushAt, Exec, Completed;
    BakedFacts(h, image, sha);
    var p := s.proc.s.present;
    if s.proc.s.dirty == 0 {
      NothingDirty(h, image, sha, s);
      FlushRun(h, image, sha, s, es, p, 0, 4);
    } else {
      SnapshotTaken(h, image, sha, s);
      StepKeepsInv(h, image, sha, s, FlushBegin);
      FlushRun(h, image, sha, Step(h, sha, s, FlushBegin), es[1..], p, s.proc.s.dirty, 0);
      ExecHead(h, sha, s, es);
    }
  }

  lemma NothingDirty(h: Header, image: seq<byte>, sha: Hash, s: State)
    requires Baked(h, image, sha) && Inv(h, image, s) && s.proc.Up? && s.proc.s.flush.NoFlush? && s.proc.s.dirty == 0
    ensures FlushAt(h, s, s.proc.s.present, 0, 4, 0)
  {
    hide Header.Slice, Unforgeable, DigestsMatch, Count, ReadBits;
    CountMono(DurableBits(h, s.disk), s.proc.s.present);
  }

  lemma SnapshotTaken(h: Header, image: seq<byte>, sha: Hash, s: State)
    requires Baked(h, image, sha) && Inv(h, image, s) && s.proc.Up? && s.proc.s.flush.NoFlush? && s.proc.s.dirty != 0
    ensures FlushAt(h, Step(h, sha, s, FlushBegin), s.proc.s.present, s.proc.s.dirty, 0, 0)
  {
    hide Header.Slice, Unforgeable, DigestsMatch, Count, ReadBits;
  }

  /** A run seen from its first event. */
  lemma {:induction false} ExecHead(h: Header, sha: Hash, s: State, es: seq<Event>)
    requires h.Sane() && |es| > 0 && !es[0].Finish?
    ensures Exec(h, sha, s, es) == Exec(h, sha, Step(h, sha, s, es[0]), es[1..])
    ensures Completed(h, sha, s, es) == Completed(h, sha, Step(h, sha, s, es[0]), es[1..])
  {
    hide Step, Completes;
    var k := |es| - 1;
    if k == 0 {
      assert Exec(h, sha, s, es[..0]) == s;
      assert !Completes(h, sha, s, es[0]) by { NoFinish(h, sha, s, es[0]); }
    } else {
      ExecHead(h, sha, s, es[..k]);
      assert es[..k][1..] == es[1..][..k - 1] && es[..k][0] == es[0] && es[1..][k - 1] == es[k];
    }
  }

  lemma NoFinish(h: Header, sha: Hash, s: State, e: Event)
    requires h.Sane() && !e.Finish?
    ensures !Completes(h, sha, s, e)
  {
  }

  /** After such a Close any reopen starts from exactly the persisted chunks, also after a power loss that leaves the bitmap
      whole. After one that cuts short the bitmap this Close wrote, a reopen starts from nothing. */
  lemma ReopenAfterClose(h: Header, image: seq<byte>, sha: Hash, s: State, es: seq<Event>, crash: Event)
    requires Baked(h, image, sha) && Inv(h, image, s) && s.proc.Up? && s.proc.s.flush.NoFlush? && Closes(s.proc.s, es)
    requires (crash.Kill? || crash.PowerLoss?) && Enabled(h, sha, Exec(h, sha, s, es), crash)
    ensures var (s', p) := (Step(h, sha, Exec(h, sha, s, es), crash), s.proc.s.present);
      && (Enabled(h, sha, s', OpenWarm) ==> Step(h, sha, s', OpenWarm).proc.s.present == p)
      && (crash.PowerLoss? && crash.cut.Some? ==> s.proc.s.dirty != 0 ==> !Enabled(h, sha, s', OpenWarm))
      && (crash.Kill? || crash.cut.None? ==> (exists i :: 0 <= i < |p| && p[i]) ==> Enabled(h, sha, s', OpenWarm))
  {
    CleanClosePersists(h, image, sha, s, es);
    var t := Exec(h, sha, s, es);
    hide Exec;
    ReopenReads(h, image, sha, t, s.proc.s.present, crash);
    if crash.PowerLoss? && crash.cut.Some? && s.proc.s.dirty != 0 {
      hide Inv, Step, Closes, Completed, HeaderCodec.DecodeBitmap, HeaderCodec.EncodeBitmap;
      BakedFacts(h, image, sha);
      HeaderCodec.BitmapRoundTrip(h, s.proc.s.present, t.disk.bitmap.value[..crash.cut.value]);
    }
  }

  lemma ReopenReads(h: Header, image: seq<byte>, sha: Hash, t: State, p: seq<bool>, crash: Event)
    requires Baked(h, image, sha) && Inv(h, image, t) && t.proc.Up? && DurableBits(h, t.disk) == p
    requires (crash.Kill? || crash.PowerLoss?) && Enabled(h, sha, t, crash)
    ensures var t' := Step(h, sha, t, crash);
      && (Enabled(h, sha, t', OpenWarm) ==> Step(h, sha, t', OpenWarm).proc.s.present == p)
      && (crash.Kill? || crash.cut.None? ==> (exists i :: 0 <= i < |p| && p[i]) ==> Enabled(h, sha, t', OpenWarm))
  {
    hide HeaderCodec.DecodeBitmap, Header.Slice, Unforgeable, DigestsMatch, Count;
    if crash.PowerLoss? && crash.cut.Some? && ReadBits(h, Step(h, sha, t, crash).disk).Some? {
      HeaderCodec.BitmapPrefix(h, t.disk.bitmap.value, crash.cut.value);
    }
  }

  lemma BakedFacts(h: Header, image: seq<byte>, sha: Hash)
    requires Baked(h, image, sha)
    ensures h.Sane() && h.Shaped() && h.totalSize == |image| && |h.present| < 0x1_0000_0000
  {
    hide Header.NumChunks, Unforgeable, DigestsMatch;
  }

  /** A byte range whose chunks all serve the image is the image's. */
  lemma RangeServed(h: Header, image: seq<byte>, data: seq<byte>, off: nat, end: nat)
    requires h.Sane() && h.totalSize == |image| == |data| && off < end <= h.totalSize
    requires forall i :: 0 <= i < |h.present| && h.ChunkForOffset(off) <= i <= h.ChunkForOffset(end - 1) ==> h.Slice(data, i) == h.Slice(image, i)
    ensures data[off..end] == image[off..end]
  {
    hide Header.NumChunks, Header.Span, Header.Lo, Header.Hi, Header.ChunkForOffset;
    assert |h.present| == h.NumChunks();
    forall k | off <= k < end ensures data[k] == image[k] {
      h.OffsetInChunk(k);
      var i := h.ChunkForOffset(k);
      h.TilesAt(i);
      h.ChunkForOffsetMono(off, k);
      h.ChunkForOffsetMono(k, end - 1);
      assert h.Slice(data, i)[k - h.Lo(i)] == h.Slice(image, i)[k - h.Lo(i)];
    }
  }
}
