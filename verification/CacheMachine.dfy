/** The shared chunk cache as a step system: fetches, flushes, crashes and reopens in any interleaving
    (diskstream/sharedcache.go). Every step is one critical section or one system call of the source. */
module CacheMachine {
  import opened Bytes
  import opened Geometry
  import opened HeaderCodec
  import opened Elision

  /** A leader between its two critical sections: waiting for upstream, or writing a verified buffer. */
  datatype Flight = Asking | Filling(buf: seq<byte>, done: nat)

  /** Where the (single) flush is. `bits` is the snapshot, `acked` the dirty count taken with it;
      `since` collects the chunks written while fdatasync runs. */
  datatype Flush =
    | NoFlush
    | Snapped(bits: seq<bool>, acked: int)
    | Syncing(bits: seq<bool>, acked: int, since: set<nat>)
    | Synced(bits: seq<bool>, acked: int)
    | Renamed(bits: seq<bool>, acked: int)

  datatype Session = Session(present: seq<bool>, inflight: map<nat, Flight>, dirty: int, flush: Flush)

  /** chunks.dat as the kernel sees it, what a power loss may still change in it, and present.psc.
      `wild`: resized since the last fdatasync, so anything may be found instead.
      `unsynced`: chunks written since the last fdatasync. */
  datatype Disk = Disk(data: seq<byte>, wild: bool, unsynced: set<nat>, bitmap: Option<seq<byte>>)

  datatype Proc = Down | Unmarked | Emptied | Up(s: Session)

  datatype State = State(disk: Disk, proc: Proc)

  datatype Event =
    | OpenWarm | OpenReset | ResetEmpty | ResetSize
    | Lead(idx: nat) | Verify(idx: nat, buf: seq<byte>) | Write(idx: nat, k: nat) | Finish(idx: nat, ok: bool)
    | FlushBegin | SyncBegin | SyncEnd | Rename | Ack | FlushFail
    | Kill | PowerLoss(data: seq<byte>, cut: Option<nat>)

  const FRESH_DIR := State(Disk([], false, {}, None), Down)

  // ---- what the files say ----

  /** What readSharedBitmap finds in the directory. */
  function ReadBits(h: Header, d: Disk): (r: Option<seq<bool>>)
    ensures r.Some? ==> |r.value| == h.NumChunks()
  {
    if d.bitmap.None? then None
    else match DecodeBitmap(h, d.bitmap.value)
      case Ok(bits) => Some(bits)
      case Err(_) => None
  }

  /** The chunks a reopened cache would take as valid. */
  function DurableBits(h: Header, d: Disk): (bits: seq<bool>)
    requires h.Shaped()
    ensures |bits| == |h.present|
  {
    if ReadBits(h, d).Some? then ReadBits(h, d).value else seq(|h.present|, _ => false)
  }

  /** A successful digest check pins the chunk's bytes (no forged chunk of this image exists). */
  ghost predicate Unforgeable(h: Header, image: seq<byte>, sha: Hash)
    requires h.Sane() && h.totalSize == |image|
  {
    forall i, buf ::
      0 <= i < |h.present| && h.present[i] && |buf| == |h.Slice(image, i)| && sha(buf) == h.blockSHA[i]
      ==> buf == h.Slice(image, i)
  }

  ghost predicate DigestsMatch(h: Header, image: seq<byte>, sha: Hash)
    requires h.Sane() && h.totalSize == |image|
  {
    forall i :: 0 <= i < |h.present| && h.present[i] ==> h.blockSHA[i] == sha(h.Slice(image, i))
  }

  /** What the model assumes of the baked header: it came from BuildHeader on this image, and no digest can be forged. */
  ghost predicate Baked(h: Header, image: seq<byte>, sha: Hash) {
    && AbsentAreZero(h, image) && |h.present| < 0x1_0000_0000 && h.Fits()
    && DigestsMatch(h, image, sha) && Unforgeable(h, image, sha)
  }

  lemma BuiltIsBaked(h: Header, image: seq<byte>, sha: Hash)
    requires Describes(h, image, sha) && |h.present| < 0x1_0000_0000 && h.Fits() && Unforgeable(h, image, sha)
    ensures Baked(h, image, sha)
  {
  }

  /** The image's own bytes pass both checks. */
  lemma HonestPasses(h: Header, image: seq<byte>, sha: Hash, idx: nat, buf: seq<byte>)
    requires Baked(h, image, sha) && idx < |h.present| && h.present[idx]
    requires h.Lo(idx) + h.Span(idx).1 <= |image| && buf == image[h.Lo(idx)..h.Lo(idx) + h.Span(idx).1]
    ensures sha(buf) == h.blockSHA[idx] && Accepts(h, sha, idx, buf)
  {
    hide Header.NumChunks, Unforgeable;
    h.TilesAt(idx);
    assert buf == h.Slice(image, idx);
  }

  // ---- steps ----

  function Splice(data: seq<byte>, at: nat, bytes: seq<byte>): (r: seq<byte>)
    requires at + |bytes| <= |data|
    ensures |r| == |data|
  {
    data[..at] + bytes + data[at + |bytes|..]
  }

  /** The two integrity checks of fetchChunk on an upstream answer. */
  predicate Accepts(h: Header, sha: Hash, idx: nat, buf: seq<byte>)
    requires h.Shaped() && idx < |h.present|
  {
    |buf| == h.Span(idx).1 && sha(buf) == h.blockSHA[idx]
  }

  /** What a power loss may leave of chunks.dat. */
  predicate Survives(h: Header, d: Disk, data: seq<byte>)
    requires h.Sane()
  {
    d.wild || (|data| == |d.data| && (|data| == h.totalSize ==>
      forall i :: 0 <= i < |h.present| && i !in d.unsynced ==> h.Slice(data, i) == h.Slice(d.data, i)))
  }

  predicate Enabled(h: Header, sha: Hash, s: State, e: Event)
    requires h.Sane()
  {
    match e
    case OpenWarm => s.proc.Down? && |s.disk.data| == h.totalSize && ReadBits(h, s.disk).Some?
    case OpenReset => s.proc.Down?
    case ResetEmpty => s.proc.Unmarked?
    case ResetSize => s.proc.Emptied?
    case Lead(idx) =>
      s.proc.Up? && h.IsPresent(idx) && idx < |s.proc.s.present| && !s.proc.s.present[idx] && idx !in s.proc.s.inflight
    case Verify(idx, buf) =>
      s.proc.Up? && idx < |h.present| && idx in s.proc.s.inflight && s.proc.s.inflight[idx].Asking? && Accepts(h, sha, idx, buf)
    case Write(idx, k) =>
      && s.proc.Up? && idx < |h.present| && |s.disk.data| == h.totalSize
      && idx in s.proc.s.inflight && s.proc.s.inflight[idx].Filling?
      && var f := s.proc.s.inflight[idx]; f.done + k <= |f.buf| == h.Span(idx).1
    case Finish(idx, ok) =>
      && s.proc.Up? && idx < |s.proc.s.present| && idx in s.proc.s.inflight
      && (ok ==> s.proc.s.inflight[idx].Filling? && s.proc.s.inflight[idx].done == |s.proc.s.inflight[idx].buf|)
    case FlushBegin => s.proc.Up? && s.proc.s.flush.NoFlush? && s.proc.s.dirty != 0
    case SyncBegin => s.proc.Up? && s.proc.s.flush.Snapped?
    case SyncEnd => s.proc.Up? && s.proc.s.flush.Syncing?
    case Rename => s.proc.Up? && s.proc.s.flush.Synced?
    case Ack => s.proc.Up? && s.proc.s.flush.Renamed?
    case FlushFail => s.proc.Up? && (s.proc.s.flush.Snapped? || s.proc.s.flush.Syncing? || s.proc.s.flush.Synced?)
    case Kill => true
    case PowerLoss(data, cut) =>
      Survives(h, s.disk, data) && (cut.Some? ==> s.disk.bitmap.Some? && cut.value < |s.disk.bitmap.value|)
  }

  function WriteDisk(h: Header, d: Disk, idx: nat, f: Flight, k: nat): Disk
    requires h.Sane() && idx < |h.present| && |d.data| == h.totalSize
    requires f.Filling? && f.done + k <= |f.buf| == h.Span(idx).1
  {
    h.TilesAt(idx);
    d.(data := Splice(d.data, h.Lo(idx) + f.done, f.buf[f.done..f.done + k]), unsynced := d.unsynced + {idx})
  }

  function Apply(h: Header, sha: Hash, s: State, e: Event): State
    requires h.Sane() && Enabled(h, sha, s, e)
  {
    match e
    case OpenWarm => s.(proc := Up(Session(ReadBits(h, s.disk).value, map[], 0, NoFlush)))
    case OpenReset => State(s.disk.(bitmap := None), Unmarked)
    case ResetEmpty => State(s.disk.(data := [], wild := true, unsynced := {}), Emptied)
    case ResetSize =>
      State(s.disk.(data := Zeros(h.totalSize), wild := true), Up(Session(seq(|h.present|, _ => false), map[], 0, NoFlush)))
    case Lead(idx) => WithSession(s, s.proc.s.(inflight := s.proc.s.inflight[idx := Asking]))
    case Verify(idx, buf) => WithSession(s, s.proc.s.(inflight := s.proc.s.inflight[idx := Filling(buf, 0)]))
    case Write(idx, k) =>
      var f := s.proc.s.inflight[idx];
      var fl := s.proc.s.flush;
      State(WriteDisk(h, s.disk, idx, f, k),
            Up(s.proc.s.(
              inflight := s.proc.s.inflight[idx := f.(done := f.done + k)],
              flush := if fl.Syncing? then fl.(since := fl.since + {idx}) else fl)))
    case Finish(idx, ok) =>
      var c := s.proc.s.(inflight := s.proc.s.inflight - {idx});
      WithSession(s, if ok then c.(present := c.present[idx := true], dirty := c.dirty + 1) else c)
    case FlushBegin => WithSession(s, s.proc.s.(flush := Snapped(s.proc.s.present, s.proc.s.dirty)))
    case SyncBegin => WithSession(s, s.proc.s.(flush := Syncing(s.proc.s.flush.bits, s.proc.s.flush.acked, {})))
    case SyncEnd =>
      State(s.disk.(wild := false, unsynced := s.proc.s.flush.since),
            Up(s.proc.s.(flush := Synced(s.proc.s.flush.bits, s.proc.s.flush.acked))))
    case Rename =>
      State(s.disk.(bitmap := Some(EncodeBitmap(h, s.proc.s.flush.bits))),
            Up(s.proc.s.(flush := Renamed(s.proc.s.flush.bits, s.proc.s.flush.acked))))
    case Ack =>
      var d := s.proc.s.dirty - s.proc.s.flush.acked;
      WithSession(s, s.proc.s.(flush := NoFlush, dirty := if d < 0 then 0 else d))
    case FlushFail => WithSession(s, s.proc.s.(flush := NoFlush))
    case Kill => s.(proc := Down)
    case PowerLoss(data, cut) =>
      State(Disk(data, false, {}, if cut.Some? then Some(s.disk.bitmap.value[..cut.value]) else s.disk.bitmap), Down)
  }

  function WithSession(s: State, c: Session): State { s.(proc := Up(c)) }

  /** One step; an event that is not enabled changes nothing. */
  function Step(h: Header, sha: Hash, s: State, e: Event): State
    requires h.Sane()
  {
    if Enabled(h, sha, s, e) then Apply(h, sha, s, e) else s
  }

  function Exec(h: Header, sha: Hash, s: State, es: seq<Event>): State
    requires h.Sane()
  {
    if es == [] then s else Step(h, sha, Exec(h, sha, s, es[..|es| - 1]), es[|es| - 1])
  }

  // ---- invariant ----

  /** Chunk i of the file is the image's and no power loss can change it. */
  ghost predicate Settled(h: Header, image: seq<byte>, d: Disk, i: nat)
    requires h.Sane() && h.totalSize == |image| && i < |h.present|
  {
    !d.wild && |d.data| == h.totalSize && i !in d.unsynced && h.Slice(d.data, i) == h.Slice(image, i)
  }

  /** Whatever the durable bitmap marks valid, and every header-absent chunk beside it, is settled. */
  ghost predicate DiskOk(h: Header, image: seq<byte>, d: Disk)
    requires h.Sane() && h.totalSize == |image|
  {
    ReadBits(h, d).Some? ==>
      && |d.data| == h.totalSize && !d.wild
      && forall i :: 0 <= i < |h.present| ==>
        && (ReadBits(h, d).value[i] ==> h.present[i])
        && (ReadBits(h, d).value[i] || !h.present[i] ==> Settled(h, image, d, i))
  }

  ghost predicate FlightOk(h: Header, image: seq<byte>, d: Disk, idx: nat, f: Flight)
    requires h.Sane() && h.totalSize == |image| == |d.data|
  {
    idx < |h.present| &&
    (f.Filling? ==>
      && f.buf == h.Slice(image, idx) && f.done <= |f.buf|
      && h.Slice(d.data, idx)[..f.done] == f.buf[..f.done])
  }

  ghost predicate SessionOk(h: Header, image: seq<byte>, d: Disk, c: Session)
    requires h.Sane() && h.totalSize == |image|
  {
    && |d.data| == h.totalSize
    && SubsetOf(c.present, h.present)
    && SubsetOf(DurableBits(h, d), c.present)
    && (forall i :: 0 <= i < |h.present| && (c.present[i] || !h.present[i]) ==> h.Slice(d.data, i) == h.Slice(image, i))
    && (forall i :: i in d.unsynced && 0 <= i < |h.present| ==> h.present[i])
    && (forall i :: i in c.inflight ==> i < |h.present| && h.present[i] && !c.present[i] && FlightOk(h, image, d, i, c.inflight[i]))
  }

  /** The flush never knows of a chunk that is not settled by the time it matters, and `dirty` counts what is not yet durable. */
  ghost predicate FlushOk(h: Header, d: Disk, c: Session)
    requires h.Shaped() && |c.present| == |h.present|
  {
    var dur := DurableBits(h, d);
    match c.flush
    case NoFlush => c.dirty == Count(c.present) - Count(dur)
    case Snapped(bits, acked) =>
      SubsetOf(dur, bits) && SubsetOf(bits, c.present) && c.dirty == Count(c.present) - Count(dur) && acked == Count(bits) - Count(dur)
    case Syncing(bits, acked, since) =>
      && SubsetOf(dur, bits) && SubsetOf(bits, c.present) && c.dirty == Count(c.present) - Count(dur) && acked == Count(bits) - Count(dur)
      && forall i :: i in since ==> i < |bits| && !bits[i] && h.present[i]
    case Synced(bits, acked) =>
      && SubsetOf(dur, bits) && SubsetOf(bits, c.present) && c.dirty == Count(c.present) - Count(dur) && acked == Count(bits) - Count(dur)
      && !d.wild && forall i :: 0 <= i < |bits| && bits[i] ==> i !in d.unsynced
    case Renamed(bits, acked) =>
      dur == bits && SubsetOf(bits, c.present) && c.dirty - acked == Count(c.present) - Count(dur)
  }

  ghost predicate Inv(h: Header, image: seq<byte>, s: State)
    requires h.Sane() && h.totalSize == |image|
  {
    && DiskOk(h, image, s.disk)
    && (s.proc.Unmarked? || s.proc.Emptied? ==> s.disk.bitmap.None?)
    && (s.proc.Emptied? ==> s.disk.unsynced == {})
    && (s.proc.Up? ==> SessionOk(h, image, s.disk, s.proc.s) && FlushOk(h, s.disk, s.proc.s))
  }

  // ---- writing one chunk leaves the others alone ----

  lemma SpliceInside(data: seq<byte>, lo: nat, hi: nat, at: nat, bytes: seq<byte>)
    requires lo + at + |bytes| <= hi <= |data|
    ensures Splice(data, lo + at, bytes)[lo..hi] == Splice(data[lo..hi], at, bytes)
  {
    var l, r := Splice(data, lo + at, bytes)[lo..hi], Splice(data[lo..hi], at, bytes);
    assert |l| == |r|;
    forall k | 0 <= k < |l| ensures l[k] == r[k] {}
  }

  lemma SpliceOutside(data: seq<byte>, at: nat, bytes: seq<byte>, lo: nat, hi: nat)
    requires at + |bytes| <= |data| && lo <= hi <= |data| && (hi <= at || at + |bytes| <= lo)
    ensures Splice(data, at, bytes)[lo..hi] == data[lo..hi]
  {
    var l, r := Splice(data, at, bytes)[lo..hi], data[lo..hi];
    forall k | 0 <= k < |l| ensures l[k] == r[k] {}
  }

  lemma SpliceChunk(h: Header, data: seq<byte>, i: nat, at: nat, bytes: seq<byte>)
    requires h.Sane() && |data| == h.totalSize && i < |h.present|
    requires at + |bytes| <= h.Span(i).1
    ensures 0 <= h.Lo(i) + at && h.Lo(i) + at + |bytes| <= |data| && |h.Slice(data, i)| == h.Span(i).1
    ensures var data' := Splice(data, h.Lo(i) + at, bytes);
      && h.Slice(data', i) == Splice(h.Slice(data, i), at, bytes)
      && forall j :: 0 <= j < |h.present| && j != i ==> h.Slice(data', j) == h.Slice(data, j)
  {
    hide Header.NumChunks, Header.Span, Splice;
    h.TilesAt(i);
    var lo, hi := h.Lo(i), h.Hi(i);
    SpliceInside(data, lo, hi, at, bytes);
    forall j | 0 <= j < |h.present| && j != i
      ensures h.Slice(Splice(data, lo + at, bytes), j) == h.Slice(data, j)
    {
      h.TilesAt(j);
      if j < i { h.Disjoint(j, i); } else { h.Disjoint(i, j); }
      SpliceOutside(data, lo + at, bytes, h.Lo(j), h.Hi(j));
    }
  }

  // ---- every step keeps the invariant ----

  lemma OpenKeepsInv(h: Header, image: seq<byte>, sha: Hash, s: State, e: Event)
    requires Baked(h, image, sha) && Inv(h, image, s) && Enabled(h, sha, s, e)
    requires e.OpenWarm? || e.OpenReset? || e.ResetEmpty? || e.ResetSize? || e.Kill?
    ensures Inv(h, image, Apply(h, sha, s, e))
  {
    hide DecodeBitmap, Header.NumChunks, Header.Span, AllZero;
    var s' := Apply(h, sha, s, e);
    if e.OpenWarm? {
      assert DurableBits(h, s'.disk) == s'.proc.s.present;
    } else if e.ResetSize? {
      forall i | 0 <= i < |h.present| && !h.present[i] ensures h.Slice(s'.disk.data, i) == h.Slice(image, i) {
        ZeroSlices(h, image, i);
      }
      CountNone(s'.proc.s.present);
      CountNone(DurableBits(h, s'.disk));
    }
  }

  lemma ZeroSlices(h: Header, image: seq<byte>, i: nat)
    requires AbsentAreZero(h, image) && i < |h.present| && !h.present[i]
    ensures h.Slice(Zeros(h.totalSize), i) == h.Slice(image, i)
  {
    hide Header.NumChunks, Header.Span;
    h.TilesAt(i);
  }

  lemma LeadKeepsInv(h: Header, image: seq<byte>, sha: Hash, s: State, idx: nat)
    requires Baked(h, image, sha) && Inv(h, image, s) && Enabled(h, sha, s, Lead(idx))
    ensures Inv(h, image, Apply(h, sha, s, Lead(idx)))
  {
    hide ReadBits, Header.NumChunks, DurableBits, DiskOk, Header.Slice, Header.Span, Count, Accepts, Unforgeable, DigestsMatch, AllZero;
  }

  lemma VerifyKeepsInv(h: Header, image: seq<byte>, sha: Hash, s: State, idx: nat, buf: seq<byte>)
    requires Baked(h, image, sha) && Inv(h, image, s) && Enabled(h, sha, s, Verify(idx, buf))
    ensures Inv(h, image, Apply(h, sha, s, Verify(idx, buf)))
    ensures buf == h.Slice(image, idx)
  {
    hide ReadBits, Header.NumChunks, DurableBits, DiskOk, Header.Slice, Header.Span, Count;
    SliceLen(h, image, idx);
  }

  lemma SliceLen(h: Header, data: seq<byte>, i: nat)
    requires h.Sane() && |data| == h.totalSize && i < |h.present|
    ensures |h.Slice(data, i)| == h.Span(i).1
  {
  }

  /** One write system call: chunk idx gains k bytes of its buffer, every other chunk and both files' sizes stay. */
  lemma WriteEffect(h: Header, image: seq<byte>, d: Disk, idx: nat, f: Flight, k: nat)
    requires h.Sane() && h.totalSize == |image| == |d.data|
    requires idx < |h.present| && f.Filling? && f.done + k <= |f.buf| == h.Span(idx).1 && FlightOk(h, image, d, idx, f)
    ensures var d' := WriteDisk(h, d, idx, f, k);
      && |d'.data| == |d.data| && d'.wild == d.wild && d'.unsynced == d.unsynced + {idx} && d'.bitmap == d.bitmap
      && (forall i :: 0 <= i < |h.present| && i != idx ==> h.Slice(d'.data, i) == h.Slice(d.data, i))
      && FlightOk(h, image, d', idx, f.(done := f.done + k))
  {
    hide Header.NumChunks, Header.Span, Header.Slice, ReadBits;
    var d' := WriteDisk(h, d, idx, f, k);
    SliceLen(h, d.data, idx);
    SliceLen(h, image, idx);
    SpliceChunk(h, d.data, idx, f.done, f.buf[f.done..f.done + k]);
    var was, now := h.Slice(d.data, idx), h.Slice(d'.data, idx);
    assert now == was[..f.done] + f.buf[f.done..f.done + k] + was[f.done + k..];
    assert now[..f.done + k] == f.buf[..f.done] + f.buf[f.done..f.done + k] == f.buf[..f.done + k];
  }

  lemma WriteKeepsInv(h: Header, image: seq<byte>, sha: Hash, s: State, idx: nat, k: nat)
    requires Baked(h, image, sha) && Inv(h, image, s) && Enabled(h, sha, s, Write(idx, k))
    ensures Inv(h, image, Apply(h, sha, s, Write(idx, k)))
  {
    hide Header.NumChunks, Header.Span, Header.Slice, Count, WriteDisk, DecodeBitmap, Unforgeable, DigestsMatch, AllZero;
    var s' := Apply(h, sha, s, Write(idx, k));
    WriteEffect(h, image, s.disk, idx, s.proc.s.inflight[idx], k);
    assert DurableBits(h, s'.disk) == DurableBits(h, s.disk);
    assert !DurableBits(h, s.disk)[idx];
    assert DiskOk(h, image, s'.disk);
    assert SessionOk(h, image, s'.disk, s'.proc.s) by {
      forall i | i in s'.proc.s.inflight
        ensures i < |h.present| && h.present[i] && !s'.proc.s.present[i] && FlightOk(h, image, s'.disk, i, s'.proc.s.inflight[i])
      {
        if i != idx { assert FlightOk(h, image, s.disk, i, s.proc.s.inflight[i]); }
      }
    }
  }

  lemma FinishKeepsInv(h: Header, image: seq<byte>, sha: Hash, s: State, idx: nat, ok: bool)
    requires Baked(h, image, sha) && Inv(h, image, s) && Enabled(h, sha, s, Finish(idx, ok))
    ensures Inv(h, image, Apply(h, sha, s, Finish(idx, ok)))
  {
    hide ReadBits, Header.NumChunks, Header.Span, Header.Slice, Count, DiskOk, DurableBits, Unforgeable, DigestsMatch, AllZero;
    if ok {
      CountUpdate(s.proc.s.present, idx);
      var f := s.proc.s.inflight[idx];
      SliceLen(h, s.disk.data, idx);
      SliceLen(h, image, idx);
      assert h.Slice(s.disk.data, idx) == h.Slice(s.disk.data, idx)[..f.done];
      assert f.buf == f.buf[..f.done];
    }
  }

  lemma FlushKeepsInv(h: Header, image: seq<byte>, sha: Hash, s: State, e: Event)
    requires Baked(h, image, sha) && Inv(h, image, s) && Enabled(h, sha, s, e)
    requires e.FlushBegin? || e.SyncBegin? || e.SyncEnd? || e.FlushFail? || e.Ack?
    ensures Inv(h, image, Apply(h, sha, s, e))
    ensures e.Ack? ==> s.proc.s.dirty >= s.proc.s.flush.acked
  {
    hide DecodeBitmap, Header.NumChunks, Header.Span, Header.Slice, Count;
    var s' := Apply(h, sha, s, e);
    assert DurableBits(h, s'.disk) == DurableBits(h, s.disk);
    if e.Ack? {
      CountMono(DurableBits(h, s.disk), s.proc.s.present);
    }
  }

  lemma RenameKeepsInv(h: Header, image: seq<byte>, sha: Hash, s: State)
    requires Baked(h, image, sha) && Inv(h, image, s) && Enabled(h, sha, s, Rename)
    ensures Inv(h, image, Apply(h, sha, s, Rename))
  {
    hide DecodeBitmap, EncodeBitmap, Header.NumChunks, Header.Span, Header.Slice, Count;
    var s' := Apply(h, sha, s, Rename);
    var bits := s.proc.s.flush.bits;
    BitmapRoundTrip(h, bits, EncodeBitmap(h, bits));
    assert DurableBits(h, s'.disk) == bits;
  }

  lemma PowerLossKeepsInv(h: Header, image: seq<byte>, sha: Hash, s: State, data: seq<byte>, cut: Option<nat>)
    requires Baked(h, image, sha) && Inv(h, image, s) && Enabled(h, sha, s, PowerLoss(data, cut))
    ensures Inv(h, image, Apply(h, sha, s, PowerLoss(data, cut)))
  {
    hide DecodeBitmap, Header.NumChunks, Header.Span, Header.Slice;
    var s' := Apply(h, sha, s, PowerLoss(data, cut));
    if cut.Some? && ReadBits(h, s'.disk).Some? {
      BitmapPrefix(h, s.disk.bitmap.value, cut.value);
    }
  }

  lemma StepKeepsInv(h: Header, image: seq<byte>, sha: Hash, s: State, e: Event)
    requires Baked(h, image, sha) && Inv(h, image, s)
    ensures Inv(h, image, Step(h, sha, s, e))
  {
    hide Inv, Apply, Enabled, Unforgeable, DigestsMatch;
    if Enabled(h, sha, s, e) {
      match e {
        case Lead(idx) => LeadKeepsInv(h, image, sha, s, idx);
        case Verify(idx, buf) => VerifyKeepsInv(h, image, sha, s, idx, buf);
        case Write(idx, k) => WriteKeepsInv(h, image, sha, s, idx, k);
        case Finish(idx, ok) => FinishKeepsInv(h, image, sha, s, idx, ok);
        case FlushBegin => FlushKeepsInv(h, image, sha, s, e);
        case SyncBegin => FlushKeepsInv(h, image, sha, s, e);
        case SyncEnd => FlushKeepsInv(h, image, sha, s, e);
        case FlushFail => FlushKeepsInv(h, image, sha, s, e);
        case Ack => FlushKeepsInv(h, image, sha, s, e);
        case Rename => RenameKeepsInv(h, image, sha, s);
        case PowerLoss(data, cut) => PowerLossKeepsInv(h, image, sha, s, data, cut);
        case _ => OpenKeepsInv(h, image, sha, s, e);
      }
    }
  }
}
