/** The shared chunk cache as running code: any number of other goroutines run their own steps of CacheMachine
    between any two steps of the methods below (diskstream/sharedcache.go). */
module SharedCaches {
  import opened Bytes
  import opened Geometry
  import opened HeaderCodec
  import opened Elision
  import opened CacheMachine
  import opened CacheSafety

  datatype IoError = OutOfRange | Cancelled | Upstream | ShortFetch | Integrity | WriteFailed | ReadFailed | SyncFailed
  datatype Outcome = Done | Failed(error: IoError)

  /** What other goroutines can do to the cache while one goroutine owns the flights `mine` (and the flush, if `flushing`). */
  ghost predicate Later(s: State, s': State, mine: set<nat>, flushing: bool) {
    && s.proc.Up? && s'.proc.Up?
    && SubsetOf(s.proc.s.present, s'.proc.s.present)
    && (forall i :: i in mine && i in s.proc.s.inflight ==> i in s'.proc.s.inflight && s'.proc.s.inflight[i] == s.proc.s.inflight[i])
    && (flushing ==> s'.disk.bitmap == s.disk.bitmap && SameStage(s.proc.s.flush, s'.proc.s.flush))
  }

  ghost predicate SameStage(a: Flush, b: Flush) {
    if a.Syncing? then b.Syncing? && b.bits == a.bits && b.acked == a.acked else a == b
  }

  lemma LaterRefl(s: State, mine: set<nat>, flushing: bool)
    requires s.proc.Up?
    ensures Later(s, s, mine, flushing)
  {
  }

  lemma LaterTrans(a: State, b: State, c: State, mine: set<nat>, flushing: bool)
    requires Later(a, b, mine, flushing) && Later(b, c, mine, flushing)
    ensures Later(a, c, mine, flushing)
  {
  }

  lemma LaterUp(s: State, s': State, mine: set<nat>, flushing: bool)
    requires Later(s, s', mine, flushing)
    ensures s'.proc.Up?
  {
  }

  /** The events of other goroutines of this process. */
  predicate Foreign(e: Event, mine: set<nat>, flushing: bool) {
    match e
    case Lead(_) => true
    case Verify(i, _) => i !in mine
    case Write(i, _) => i !in mine
    case Finish(i, _) => i !in mine
    case FlushBegin => !flushing
    case SyncBegin => !flushing
    case SyncEnd => !flushing
    case Rename => !flushing
    case Ack => !flushing
    case FlushFail => !flushing
    case _ => false
  }

  /** The guarantee every goroutine gives the others. */
  lemma ForeignStep(h: Header, image: seq<byte>, sha: Hash, s: State, e: Event, mine: set<nat>, flushing: bool)
    requires Baked(h, image, sha) && Inv(h, image, s) && s.proc.Up? && Foreign(e, mine, flushing)
    ensures Inv(h, image, Step(h, sha, s, e))
    ensures Later(s, Step(h, sha, s, e), mine, flushing)
  {
    hide Inv, Unforgeable, DigestsMatch, AllZero, Header.Slice, Splice, EncodeBitmap, Accepts;
    StepKeepsInv(h, image, sha, s, e);
  }

  /** The stages of a flush, each from the one before, keep the invariant; so does giving up. */
  lemma FlushMove(h: Header, image: seq<byte>, sha: Hash, d: Disk, c: Session)
    requires Baked(h, image, sha) && Inv(h, image, State(d, Up(c)))
    ensures match c.flush
      case NoFlush => c.dirty != 0 ==> Inv(h, image, State(d, Up(c.(flush := Snapped(c.present, c.dirty)))))
      case Snapped(bits, acked) => Inv(h, image, State(d, Up(c.(flush := Syncing(bits, acked, {})))))
      case Syncing(bits, acked, since) =>
        Inv(h, image, State(d.(wild := false, unsynced := since), Up(c.(flush := Synced(bits, acked)))))
      case Synced(bits, acked) =>
        Inv(h, image, State(d.(bitmap := Some(EncodeBitmap(h, bits))), Up(c.(flush := Renamed(bits, acked)))))
      case Renamed(bits, acked) =>
        Inv(h, image, State(d, Up(c.(flush := NoFlush, dirty := if c.dirty - acked < 0 then 0 else c.dirty - acked))))
    ensures !c.flush.NoFlush? && !c.flush.Renamed? ==> Inv(h, image, State(d, Up(c.(flush := NoFlush))))
  {
    hide Inv, Unforgeable, DigestsMatch, AllZero, Header.Slice, Header.NumChunks, EncodeBitmap;
    var s := State(d, Up(c));
    match c.flush {
      case NoFlush => if c.dirty != 0 { FlushKeepsInv(h, image, sha, s, FlushBegin); }
      case Snapped(_, _) => FlushKeepsInv(h, image, sha, s, SyncBegin); FlushKeepsInv(h, image, sha, s, FlushFail);
      case Syncing(_, _, _) => FlushKeepsInv(h, image, sha, s, SyncEnd); FlushKeepsInv(h, image, sha, s, FlushFail);
      case Synced(_, _) => RenameKeepsInv(h, image, sha, s); FlushKeepsInv(h, image, sha, s, FlushFail);
      case Renamed(_, _) => FlushKeepsInv(h, image, sha, s, Ack);
    }
  }

  class SharedCache {
    const h: Header
    const sha: Hash
    ghost const image: seq<byte>
    var disk: Disk
    var present: seq<bool>
    var inflight: map<nat, Flight>
    var dirty: int
    var flush: Flush
    var hits: nat
    var fills: nat
    var verifyErr: nat
    /** Whether Open kept what it found. */
    const warm: bool
    /** How often the outside failed a goroutine of this object's methods: an upstream answer that is not the chunk, a
        failed read, write or sync, a cancelled context. */
    ghost var faults: nat

    function View(): State
      reads this
    {
      State(disk, Up(Session(present, inflight, dirty, flush)))
    }

    ghost predicate Valid()
      reads this
    {
      Baked(h, image, sha) && Inv(h, image, View())
    }

    /** OpenSharedCache on the files a previous process or a crash left; the Stat and the reading of the bitmap file may
        fail. */
    constructor Open(h: Header, sha: Hash, ghost image: seq<byte>, d: Disk, statOk: bool, readOk: bool)
      requires Baked(h, image, sha) && DiskOk(h, image, d)
      ensures Valid() && this.h == h && this.sha == sha && this.image == image && flush.NoFlush? && inflight == map[]
      ensures warm ==> |d.data| == h.totalSize && ReadBits(h, d) == Some(present) && disk == d
      ensures !warm ==> View() == Exec(h, sha, State(d, Down), [OpenReset, ResetEmpty, ResetSize])
      ensures warm == (statOk && readOk && |d.data| == h.totalSize && ReadBits(h, d).Some?)
    {
      hide Header.NumChunks, Header.Slice, Header.Span, DecodeBitmap, Unforgeable, DigestsMatch, AllZero;
      ghost var s0 := State(d, Down);
      this.h, this.sha, this.image := h, sha, image;
      var n := |h.present|;
      var bits, isNew := seq(n, _ => false), true;
      var files := d;
      if statOk && |d.data| == h.totalSize && d.bitmap.Some? {
        var r := ReadBitmap(h, d.bitmap.value);
        if readOk && r.Ok? {
          bits, isNew := r.value, false;
        } else {
          files := files.(bitmap := None);  // unreadable or mismatched: remove it
        }
      }
      if isNew {
        files := files.(bitmap := None);
        files := files.(data := [], wild := true, unsynced := {});  // Truncate(0)
        files := files.(data := Zeros(h.totalSize), wild := true);  // Truncate(TotalSize)
      }
      disk, present, inflight, dirty, flush := files, bits, map[], 0, NoFlush;
      hits, fills, verifyErr := 0, 0, 0;
      warm := !isNew;
      new;
      if isNew {
        OpenKeepsInv(h, image, sha, s0, OpenReset);
        var s1 := Step(h, sha, s0, OpenReset);
        OpenKeepsInv(h, image, sha, s1, ResetEmpty);
        var s2 := Step(h, sha, s1, ResetEmpty);
        OpenKeepsInv(h, image, sha, s2, ResetSize);
        ExecThree(h, sha, s0);
      } else {
        OpenKeepsInv(h, image, sha, s0, OpenWarm);
      }
    }

    /** Any number of steps of other goroutines. */
    method Interfere(mine: set<nat>, flushing: bool)
      requires Valid()
      modifies this
      ensures Valid() && Later(old(View()), View(), mine, flushing) && faults == old(faults)
    {
      hide Inv, Step, Unforgeable, DigestsMatch, AllZero, Header.Slice, Later;
      var n: nat := *;
      LaterRefl(View(), mine, flushing);
      while n > 0
        invariant Valid() && Later(old(View()), View(), mine, flushing) && faults == old(faults)
      {
        var e: Event := *;
        if Foreign(e, mine, flushing) {
          ForeignStep(h, image, sha, View(), e, mine, flushing);
          var s := Step(h, sha, View(), e);
          LaterTrans(old(View()), View(), s, mine, flushing);
          LaterUp(View(), s, mine, flushing);
          disk, present, inflight, dirty, flush := s.disk, s.proc.s.present, s.proc.s.inflight, s.proc.s.dirty, s.proc.s.flush;
        }
        n := n - 1;
      }
    }

    /** A call to the outside: a read, a write, a sync, or the context still being alive. */
    method Works() returns (ok: bool)
      modifies this`faults
      ensures faults == old(faults) + if ok then 0 else 1
    {
      ok := *;
      faults := faults + if ok then 0 else 1;
    }

    /** The upstream source fills the buffer with anything, reports any count up to its length, and may fail. */
    method AskUpstream(off: nat, length: nat) returns (buf: seq<byte>, n: nat, failed: bool)
      requires off + length <= |image|
      modifies this`faults
      ensures |buf| == length && n <= length
      ensures faults == old(faults) + if !failed && n == length && buf == image[off..off + length] then 0 else 1
    {
      buf := *;
      n := *;
      failed := *;
      if |buf| != length { buf := Zeros(length); }
      if n > length { n := length; }
      faults := faults + if !failed && n == length && buf == image[off..off + length] then 0 else 1;
    }

    /** fetchChunk: fails only if the upstream's answer was not the chunk or the write failed. */
    method FetchChunk(idx: nat) returns (r: Outcome)
      requires Valid() && idx < |h.present| && h.present[idx] && idx in inflight && inflight[idx] == Asking
      modifies this
      ensures Valid() && SubsetOf(old(present), present) && idx in inflight
      ensures r.Done? ==> inflight[idx].Filling? && inflight[idx].done == |inflight[idx].buf|
      ensures faults >= old(faults) && (r.Failed? ==> faults > old(faults))
    {
      hide Header.NumChunks, Header.Span, Header.ChunkRange, Header.Fits, Inv, Unforgeable, DigestsMatch, AllZero, Header.Slice, WriteDisk;
      h.FetchedIsSpan(idx);
      var (off, length) := h.ChunkRange(idx);
      h.TilesAt(idx);
      ghost var before := faults;
      var buf, n, failed := AskUpstream(off, length);
      if faults == before { HonestPasses(h, image, sha, idx, buf); }
      Interfere({idx}, false);
      if failed { return Failed(Upstream); }
      if n < length { return Failed(ShortFetch); }
      assert buf[..n] == buf;
      if sha(buf[..n]) != h.blockSHA[idx] {
        verifyErr := verifyErr + 1;
        return Failed(Integrity);
      }
      ghost var s := View();
      InflightBounds(h, image, s);
      VerifyKeepsInv(h, image, sha, s, idx, buf);
      inflight := inflight[idx := Filling(buf, 0)];
      assert View() == Apply(h, sha, s, Verify(idx, buf));
      r := WriteChunk(idx);
    }

    /** data.WriteAt: any number of partial writes, failing anywhere. */
    method WriteChunk(idx: nat) returns (r: Outcome)
      requires Valid() && idx < |h.present| && idx in inflight && inflight[idx].Filling?
      modifies this
      ensures Valid() && SubsetOf(old(present), present) && idx in inflight
      ensures r.Done? ==> inflight[idx].Filling? && inflight[idx].done == |inflight[idx].buf|
      ensures faults == old(faults) + if r.Failed? then 1 else 0
    {
      hide Header.NumChunks, Header.Span, Inv, Unforgeable, DigestsMatch, AllZero, Header.Slice, WriteDisk;
      FlightBounds(h, image, View(), idx);
      while inflight[idx].done < |inflight[idx].buf|
        invariant Valid() && SubsetOf(old(present), present) && faults == old(faults)
        invariant idx in inflight && inflight[idx].Filling?
        invariant inflight[idx].done <= |inflight[idx].buf| == h.Span(idx).1 && |disk.data| == h.totalSize
        decreases |inflight[idx].buf| - inflight[idx].done
      {
        ghost var s := View();
        var f := inflight[idx];
        var ok := Works();
        if !ok { return Failed(WriteFailed); }
        var k: nat := *;
        if !(1 <= k <= |f.buf| - f.done) { k := |f.buf| - f.done; }
        WriteKeepsInv(h, image, sha, s, idx, k);
        disk := WriteDisk(h, disk, idx, f, k);
        inflight := inflight[idx := f.(done := f.done + k)];
        if flush.Syncing? { flush := flush.(since := flush.since + {idx}); }
        assert View() == Apply(h, sha, s, Write(idx, k));
        Interfere({idx}, false);
        FlightBounds(h, image, View(), idx);
      }
      fills := fills + 1;
      return Done;
    }

    /** ensureChunk: a valid chunk is done at once; a call that finds the chunk neither valid nor in flight leaves no
        flight of it, and a failed one leaves it invalid; and a call fails only if the outside failed it. `patience` bounds
        the retries; running out of it counts as the context being cancelled. */
    method EnsureChunk(idx: int, patience: nat) returns (r: Outcome)
      requires Valid() && h.IsPresent(idx)
      modifies this
      ensures Valid() && SubsetOf(old(present), present)
      ensures 0 <= idx < |present| == |old(present)|
      ensures r.Done? ==> present[idx]
      ensures old(present)[idx] ==> r.Done? && View() == old(View())
      ensures idx !in old(inflight) ==> idx !in inflight && (r.Failed? ==> !present[idx])
      ensures faults >= old(faults) && (r.Failed? ==> faults > old(faults))
      decreases patience
    {
      hide Header.NumChunks, Inv, Unforgeable, DigestsMatch, AllZero, Header.Slice;
      InflightBounds(h, image, View());
      if idx < 0 || idx >= |present| { return Failed(OutOfRange); }
      if present[idx] {
        hits := hits + 1;
        return Done;
      }
      if idx in inflight {
        Interfere({}, false);
        var alive := Works();
        if !alive { return Failed(Cancelled); }
        if present[idx] { return Done; }
        if patience == 0 {
          faults := faults + 1;
          return Failed(Cancelled);
        }
        r := EnsureChunk(idx, patience - 1);
        return;
      }
      ghost var s := View();
      LeadKeepsInv(h, image, sha, s, idx);
      inflight := inflight[idx := Asking];
      assert View() == Apply(h, sha, s, Lead(idx));
      r := FetchChunk(idx);
      ghost var t := View();
      InflightBounds(h, image, t);
      FinishKeepsInv(h, image, sha, t, idx, r.Done?);
      if r.Done? {
        present := present[idx := true];
        dirty := dirty + 1;
      }
      inflight := inflight - {idx};
      assert View() == Apply(h, sha, t, Finish(idx, r.Done?));
    }

    /** ReadAt: a successful read returns exactly the image's bytes, clamped to the image, and says how many. Inside the
        image it fails only if the outside failed it. */
    method ReadAt(p: array<byte>, off: int, patience: nat) returns (n: nat, r: Outcome)
      requires Valid()
      modifies this, p
      ensures Valid() && SubsetOf(old(present), present)
      ensures r.Done? && p.Length > 0 ==>
        && 0 <= off < h.totalSize && n == Min(p.Length, h.totalSize - off)
        && p[..n] == image[off..off + n]
      ensures r.Done? && p.Length == 0 ==> n == 0
      ensures p.Length > 0 && !(0 <= off < h.totalSize) ==> r == Failed(OutOfRange)
      ensures forall k :: n <= k < p.Length && r.Done? ==> p[k] == old(p[k])
      ensures r.Failed? ==> n == 0
      ensures faults >= old(faults) && (r.Failed? && 0 <= off < h.totalSize ==> faults > old(faults))
    {
      hide Header.NumChunks, Header.Span, Header.ChunkForOffset, Inv, Unforgeable, DigestsMatch, AllZero, Header.Slice;
      if p.Length == 0 { return 0, Done; }
      if off < 0 || off >= h.totalSize { return 0, Failed(OutOfRange); }
      var end := Min(off + p.Length, h.totalSize);
      var first, last := h.ChunkForOffset(off), h.ChunkForOffset(end - 1);
      h.OffsetInChunk(off);
      h.OffsetInChunk(end - 1);
      InflightBounds(h, image, View());
      var i := first;
      while i <= last
        invariant first <= i
        invariant Valid() && SubsetOf(old(present), present) && faults >= old(faults)
        invariant p[..] == old(p[..])
        invariant forall j :: first <= j < i && h.IsPresent(j) ==> j < |present| && present[j]
      {
        if h.IsPresent(i) {
          r := EnsureChunk(i, patience);
          if r.Failed? { return 0, r; }
        }
        i := i + 1;
      }
      r := CopyOut(p, off, end, first, last);
      n := if r.Done? then end - off else 0;
    }

    /** The final data.ReadAt, one byte at a time with other goroutines running in between. */
    method CopyOut(p: array<byte>, off: nat, end: nat, ghost first: int, ghost last: int) returns (r: Outcome)
      requires Valid() && off < end <= h.totalSize && end - off <= p.Length
      requires first == h.ChunkForOffset(off) && last == h.ChunkForOffset(end - 1)
      requires forall j :: first <= j <= last && h.IsPresent(j) ==> j < |present| && present[j]
      modifies this, p
      ensures Valid() && SubsetOf(old(present), present)
      ensures r.Done? ==> p[..end - off] == image[off..end]
      ensures faults == old(faults) + if r.Failed? then 1 else 0
      ensures forall k :: end - off <= k < p.Length ==> p[k] == old(p[k])
    {
      hide Header.NumChunks, Header.Span, Header.ChunkForOffset, Inv, Unforgeable, DigestsMatch, AllZero, Header.Slice;
      var k := 0;
      while k < end - off
        invariant 0 <= k <= end - off
        invariant Valid() && SubsetOf(old(present), present) && faults == old(faults)
        invariant forall j :: first <= j <= last && h.IsPresent(j) ==> j < |present| && present[j]
        invariant p[..k] == image[off..off + k]
        invariant forall m :: end - off <= m < p.Length ==> p[m] == old(p[m])
      {
        Interfere({}, false);
        var ok := Works();
        if !ok { return Failed(ReadFailed); }
        ResolvedServes(h, image, View(), off, end);
        p[k] := disk.data[off + k];
        assert disk.data[off..end][k] == image[off..end][k];
        assert p[..k + 1] == p[..k] + [p[k]];
        assert image[off..off + k + 1] == image[off..off + k] + [image[off + k]];
        k := k + 1;
      }
      return Done;
    }

    /** Flush, serialised with other flushes but not with fetches: on success every chunk valid when it started is durable;
        it fails only if the sync or the writing of the bitmap did, and then nothing more is durable than before. */
    method Flush() returns (r: Outcome)
      requires Valid() && flush.NoFlush?
      modifies this
      ensures Valid() && flush.NoFlush? && SubsetOf(old(present), present)
      ensures r.Done? ==> SubsetOf(old(present), DurableBits(h, disk))
      ensures r.Failed? ==> disk.bitmap == old(disk.bitmap)
      ensures faults == old(faults) + if r.Failed? then 1 else 0
    {
      hide Header.NumChunks, Baked, Inv, Header.Slice, EncodeBitmap, Count, DurableBits;
      FlushFacts(h, image, sha, View());
      FlushMove(h, image, sha, disk, View().proc.s);
      if dirty == 0 { return Done; }
      var snapshot, acked := present, dirty;
      flush := Snapped(snapshot, acked);
      Interfere({}, true);
      FlushMove(h, image, sha, disk, View().proc.s);
      flush := Syncing(snapshot, acked, {});
      Interfere({}, true);
      FlushMove(h, image, sha, disk, View().proc.s);
      var ok := Works();
      if !ok {
        flush := NoFlush;
        return Failed(SyncFailed);
      }
      disk := disk.(wild := false, unsynced := flush.since);
      flush := Synced(snapshot, acked);
      Interfere({}, true);
      r := FinishFlush(snapshot, acked);
    }

    /** writeSharedBitmap and the final critical section of Flush. */
    method FinishFlush(snapshot: seq<bool>, acked: int) returns (r: Outcome)
      requires Valid() && flush == Synced(snapshot, acked)
      modifies this
      ensures Valid() && flush.NoFlush? && SubsetOf(old(present), present)
      ensures r.Done? ==> DurableBits(h, disk) == snapshot
      ensures r.Failed? ==> disk.bitmap == old(disk.bitmap)
      ensures faults == old(faults) + if r.Failed? then 1 else 0
    {
      hide Header.NumChunks, Baked, Inv, Header.Slice, EncodeBitmap, Count, DurableBits;
      FlushMove(h, image, sha, disk, View().proc.s);
      var ok := Works();
      if !ok {
        flush := NoFlush;
        return Failed(WriteFailed);
      }
      FlushLen(h, image, sha, View());
      var bytes := EncodeShared(h, snapshot);
      disk := disk.(bitmap := Some(bytes));
      flush := Renamed(snapshot, acked);
      FlushFacts(h, image, sha, View());
      Interfere({}, true);
      FlushFacts(h, image, sha, View());
      FlushMove(h, image, sha, disk, View().proc.s);
      dirty := if dirty - acked < 0 then 0 else dirty - acked;
      flush := NoFlush;
      return Done;
    }
  }

  // ---- consequences of the invariant the methods use ----

  lemma ExecThree(h: Header, sha: Hash, s: State)
    requires h.Sane()
    ensures Exec(h, sha, s, [OpenReset, ResetEmpty, ResetSize]) ==
      Step(h, sha, Step(h, sha, Step(h, sha, s, OpenReset), ResetEmpty), ResetSize)
  {
    hide Step;
    assert [OpenReset, ResetEmpty, ResetSize][..2] == [OpenReset, ResetEmpty];
    assert [OpenReset, ResetEmpty][..1] == [OpenReset];
    assert Exec(h, sha, s, [OpenReset]) == Step(h, sha, s, OpenReset);
    assert Exec(h, sha, s, [OpenReset, ResetEmpty]) == Step(h, sha, Step(h, sha, s, OpenReset), ResetEmpty);
  }

  lemma InflightBounds(h: Header, image: seq<byte>, s: State)
    requires h.Sane() && h.totalSize == |image| && Inv(h, image, s) && s.proc.Up?
    ensures |s.proc.s.present| == |h.present| && |s.disk.data| == h.totalSize
    ensures forall i :: i in s.proc.s.inflight ==> i < |h.present| && !s.proc.s.present[i]
  {
  }

  lemma FlightBounds(h: Header, image: seq<byte>, s: State, idx: nat)
    requires h.Sane() && h.totalSize == |image| && Inv(h, image, s) && s.proc.Up?
    requires idx in s.proc.s.inflight && s.proc.s.inflight[idx].Filling?
    ensures idx < |h.present| && |s.disk.data| == h.totalSize
    ensures s.proc.s.inflight[idx].done <= |s.proc.s.inflight[idx].buf| == h.Span(idx).1
  {
    hide Header.Span, Header.Slice;
    SliceLen(h, image, idx);
  }

  lemma FlushLen(h: Header, image: seq<byte>, sha: Hash, s: State)
    requires Baked(h, image, sha) && Inv(h, image, s) && s.proc.Up? && s.proc.s.flush.Synced?
    ensures h.Shaped() && |s.proc.s.flush.bits| == |h.present|
  {
  }

  /** Once every present chunk of a range is valid, the range reads as the image. */
  lemma ResolvedServes(h: Header, image: seq<byte>, s: State, off: nat, end: nat)
    requires h.Sane() && h.totalSize == |image| && Inv(h, image, s) && s.proc.Up? && off < end <= h.totalSize
    requires forall j :: h.ChunkForOffset(off) <= j <= h.ChunkForOffset(end - 1) && h.IsPresent(j) ==>
      j < |s.proc.s.present| && s.proc.s.present[j]
    ensures |s.disk.data| == h.totalSize && s.disk.data[off..end] == image[off..end]
  {
    hide Header.Slice, Header.ChunkForOffset, DiskOk, FlushOk, DurableBits;
    RangeServed(h, image, s.disk.data, off, end);
  }

  lemma FlushFacts(h: Header, image: seq<byte>, sha: Hash, s: State)
    requires Baked(h, image, sha) && Inv(h, image, s) && s.proc.Up?
    ensures h.Sane() && h.totalSize == |image|
    ensures |s.proc.s.present| == |h.present|
    ensures s.proc.s.flush.NoFlush? && s.proc.s.dirty == 0 ==> DurableBits(h, s.disk) == s.proc.s.present
    ensures s.proc.s.flush.Renamed? ==> DurableBits(h, s.disk) == s.proc.s.flush.bits
  {
    hide Header.Slice, Count, DiskOk, DurableBits;
    if s.proc.s.flush.NoFlush? { CountMono(DurableBits(h, s.disk), s.proc.s.present); }
  }
}
