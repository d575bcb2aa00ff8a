/** The per-device resolver's single-flight protocol with any number of interleaved callers (diskstream/resolver.go). */
module ResolverMachine {
  import opened Bytes
  import opened Geometry
  import opened Elision
  import opened CacheMachine

  datatype FetchError = SourceFailed | Short | Integrity | WriteFailed | Cancelled | OutOfRange
  datatype Answer = Nil | Err(error: FetchError)

  /** Where a caller of ensureChunk is. A channel is named after the caller that made it. */
  datatype Caller =
    | Waiting(idx: nat, ch: nat)
    | Leading(idx: nat)
    | Returned(idx: nat, answer: Answer)

  /** A chunk's channel (its leader) and how far the fetch is. */
  datatype Fetch = Fetch(ch: nat, flight: Flight)

  datatype RState = RState(
    data: seq<byte>,
    cached: seq<bool>,
    inflight: map<nat, Fetch>,
    fetchErr: map<nat, FetchError>,
    closed: set<nat>,
    callers: map<nat, Caller>)

  datatype REvent =
    | Enter(c: nat, idx: nat)
    | Wake(c: nat)
    | Cancel(c: nat)
    | Verify(c: nat, buf: seq<byte>)
    | Write(c: nat, k: nat)
    | Finish(c: nat, answer: Answer)

  /** The first critical section of ensureChunk. */
  function EnterSection(s: RState, c: nat, idx: nat): RState
    requires idx < |s.cached|
  {
    if s.cached[idx] then s.(callers := s.callers[c := Returned(idx, Nil)])
    else if idx in s.inflight then s.(callers := s.callers[c := Waiting(idx, s.inflight[idx].ch)])
    else s.(inflight := s.inflight[idx := Fetch(c, Asking)], callers := s.callers[c := Leading(idx)])
  }

  /** The critical section after the channel closed. A missing fetchErr entry reads as a nil error. */
  function WakeSection(s: RState, c: nat): RState
    requires c in s.callers && s.callers[c].Waiting? && s.callers[c].idx < |s.cached|
  {
    var idx := s.callers[c].idx;
    var answer := if s.cached[idx] || idx !in s.fetchErr then Nil else Err(s.fetchErr[idx]);
    s.(callers := s.callers[c := Returned(idx, answer)])
  }

  /** The last critical section of the leader. */
  function FinishSection(s: RState, c: nat, answer: Answer): RState
    requires c in s.callers && s.callers[c].Leading? && s.callers[c].idx < |s.cached|
  {
    var idx := s.callers[c].idx;
    var t := if answer.Nil? then s.(cached := s.cached[idx := true], fetchErr := s.fetchErr - {idx})
             else s.(fetchErr := s.fetchErr[idx := answer.error]);
    t.(inflight := s.inflight - {idx}, closed := s.closed + {c},
       callers := s.callers[c := Returned(idx, answer)])
  }

  function SetFlight(s: RState, idx: nat, f: Flight): RState
    requires idx in s.inflight
  {
    s.(inflight := s.inflight[idx := s.inflight[idx].(flight := f)])
  }

  predicate LeadsFlight(s: RState, c: nat) {
    c in s.callers && s.callers[c].Leading? && s.callers[c].idx in s.inflight
  }

  function FlightOf(s: RState, c: nat): Flight
    requires LeadsFlight(s, c)
  {
    s.inflight[s.callers[c].idx].flight
  }

  predicate REnabled(h: Header, sha: Hash, s: RState, e: REvent)
    requires h.Sane()
  {
    match e
    case Enter(c, idx) => c !in s.callers && h.IsPresent(idx) && idx < |s.cached|
    case Wake(c) => c in s.callers && s.callers[c].Waiting? && s.callers[c].ch in s.closed && s.callers[c].idx < |s.cached|
    case Cancel(c) => c in s.callers && s.callers[c].Waiting?
    case Verify(c, buf) =>
      && LeadsFlight(s, c) && s.callers[c].idx < |h.present|
      && FlightOf(s, c).Asking? && Accepts(h, sha, s.callers[c].idx, buf)
    case Write(c, k) =>
      && LeadsFlight(s, c) && s.callers[c].idx < |h.present| && |s.data| == h.totalSize && FlightOf(s, c).Filling?
      && FlightOf(s, c).done + k <= |FlightOf(s, c).buf| == h.Span(s.callers[c].idx).1
    case Finish(c, answer) =>
      && LeadsFlight(s, c) && s.callers[c].idx < |s.cached|
      && (answer.Nil? ==> FlightOf(s, c).Filling? && FlightOf(s, c).done == |FlightOf(s, c).buf|)
  }

  function WriteFile(h: Header, data: seq<byte>, idx: nat, f: Flight, k: nat): seq<byte>
    requires h.Sane() && idx < |h.present| && |data| == h.totalSize
    requires f.Filling? && f.done + k <= |f.buf| == h.Span(idx).1
  {
    WriteDisk(h, Disk(data, false, {}, None), idx, f, k).data
  }

  function RApply(h: Header, sha: Hash, s: RState, e: REvent): RState
    requires h.Sane() && REnabled(h, sha, s, e)
  {
    match e
    case Enter(c, idx) => EnterSection(s, c, idx)
    case Wake(c) => WakeSection(s, c)
    case Cancel(c) => s.(callers := s.callers[c := Returned(s.callers[c].idx, Err(Cancelled))])
    case Verify(c, buf) => SetFlight(s, s.callers[c].idx, Filling(buf, 0))
    case Write(c, k) =>
      var idx, f := s.callers[c].idx, FlightOf(s, c);
      SetFlight(s, idx, f.(done := f.done + k)).(data := WriteFile(h, s.data, idx, f, k))
    case Finish(c, answer) => FinishSection(s, c, answer)
  }

  function RStep(h: Header, sha: Hash, s: RState, e: REvent): RState
    requires h.Sane()
  {
    if REnabled(h, sha, s, e) then RApply(h, sha, s, e) else s
  }

  function RExec(h: Header, sha: Hash, s: RState, es: seq<REvent>): RState
    requires h.Sane()
  {
    if es == [] then s else RStep(h, sha, RExec(h, sha, s, es[..|es| - 1]), es[|es| - 1])
  }

  /** NewResolver on a cache file with these contents. */
  function NewResolver(h: Header, data: seq<byte>): RState
    requires h.Shaped()
  {
    RState(data, seq(|h.present|, _ => false), map[], map[], {}, map[])
  }

  // ---- invariant ----

  /** Every entry of `inflight` is one caller that leads it, and its channel is open. */
  ghost predicate FetchesOk(s: RState) {
    && (forall i :: i in s.inflight ==>
      && i < |s.cached| && !s.cached[i] && s.inflight[i].ch !in s.closed
      && s.inflight[i].ch in s.callers && s.callers[s.inflight[i].ch] == Leading(i))
    && (forall c :: c in s.callers && s.callers[c].Leading? ==>
      s.callers[c].idx in s.inflight && s.inflight[s.callers[c].idx].ch == c)
    && s.closed <= s.callers.Keys
  }

  /** What a caller may rely on: its channel is registered or closed; a closed channel means a valid chunk or a
      recorded error; a nil answer means a valid chunk. */
  ghost predicate CallerOk(s: RState, k: Caller) {
    && k.idx < |s.cached|
    && (k.Waiting? ==>
      && ((k.idx in s.inflight && s.inflight[k.idx].ch == k.ch) || k.ch in s.closed)
      && (k.ch in s.closed ==> s.cached[k.idx] || k.idx in s.fetchErr))
    && (k.Returned? && k.answer.Nil? ==> s.cached[k.idx])
  }

  /** A leader whose channel is closed has returned, and its chunk is valid or has an error recorded. */
  ghost predicate FinishedOk(s: RState, k: Caller) {
    k.Returned? && k.idx < |s.cached| && (s.cached[k.idx] || k.idx in s.fetchErr)
  }

  ghost predicate CallersOk(s: RState) {
    && (forall c :: c in s.callers ==> CallerOk(s, s.callers[c]))
    && (forall c :: c in s.closed && c in s.callers ==> FinishedOk(s, s.callers[c]))
  }

  ghost predicate FileOk(h: Header, image: seq<byte>, s: RState)
    requires h.Sane() && h.totalSize == |image|
  {
    && |s.data| == h.totalSize && |s.cached| == |h.present|
    && (forall i :: 0 <= i < |h.present| && (s.cached[i] || !h.present[i]) ==> h.Slice(s.data, i) == h.Slice(image, i))
    && (forall i :: 0 <= i < |h.present| && s.cached[i] ==> h.present[i])
    && (forall i :: i in s.inflight ==> i < |h.present| && h.present[i] && FlightOk(h, image, Disk(s.data, false, {}, None), i, s.inflight[i].flight))
  }

  ghost predicate RInv(h: Header, image: seq<byte>, s: RState)
    requires h.Sane() && h.totalSize == |image|
  {
    FetchesOk(s) && CallersOk(s) && FileOk(h, image, s)
  }

  /** A fresh (all-zero) cache file is what NewResolver needs; any file already serving the absent chunks will do. */
  lemma NewResolverOk(h: Header, image: seq<byte>, data: seq<byte>)
    requires h.Sane() && h.totalSize == |image| == |data|
    ensures RInv(h, image, NewResolver(h, data)) <==>
      forall i :: 0 <= i < |h.present| && !h.present[i] ==> h.Slice(data, i) == h.Slice(image, i)
  {
    hide Header.Slice, Header.NumChunks;
  }

  lemma FreshFileOk(h: Header, image: seq<byte>)
    requires AbsentAreZero(h, image)
    ensures RInv(h, image, NewResolver(h, Zeros(h.totalSize)))
  {
    hide Header.Slice, Header.NumChunks, RInv, NewResolver, AllZero;
    NewResolverOk(h, image, Zeros(h.totalSize));
    forall i | 0 <= i < |h.present| && !h.present[i] ensures h.Slice(Zeros(h.totalSize), i) == h.Slice(image, i) {
      ZeroSlices(h, image, i);
    }
  }

  // ---- every step keeps it ----

  lemma EnterKeeps(h: Header, image: seq<byte>, s: RState, c: nat, idx: nat)
    requires h.Sane() && h.totalSize == |image| && RInv(h, image, s)
    requires c !in s.callers && h.IsPresent(idx) && idx < |s.cached|
    ensures RInv(h, image, EnterSection(s, c, idx))
  {
    hide Header.Slice, Header.NumChunks;
    var s' := EnterSection(s, c, idx);
    assert FileOk(h, image, s');
    EnterFetches(s, c, idx);
    EnterCallers(s, c, idx);
  }

  lemma EnterFetches(s: RState, c: nat, idx: nat)
    requires FetchesOk(s) && c !in s.callers && idx < |s.cached|
    ensures FetchesOk(EnterSection(s, c, idx))
  {
  }

  lemma EnterCallers(s: RState, c: nat, idx: nat)
    requires CallersOk(s) && FetchesOk(s) && c !in s.callers && idx < |s.cached|
    ensures CallersOk(EnterSection(s, c, idx))
  {
    var s' := EnterSection(s, c, idx);
    forall d | d in s'.callers ensures CallerOk(s', s'.callers[d]) {
      if d != c { assert CallerOk(s, s.callers[d]); }
    }
  }

  lemma WakeKeeps(h: Header, image: seq<byte>, s: RState, c: nat)
    requires h.Sane() && h.totalSize == |image| && RInv(h, image, s)
    requires c in s.callers && s.callers[c].Waiting?
    ensures s.callers[c].idx < |s.cached|
    ensures s.callers[c].ch in s.closed ==> RInv(h, image, WakeSection(s, c))
    ensures RInv(h, image, s.(callers := s.callers[c := Returned(s.callers[c].idx, Err(Cancelled))]))
  {
    hide Header.Slice, Header.NumChunks, FileOk;
    assert CallerOk(s, s.callers[c]);
    OtherCallers(h, image, s, c, Returned(s.callers[c].idx, Err(Cancelled)));
    if s.callers[c].ch in s.closed {
      OtherCallers(h, image, s, c, WakeSection(s, c).callers[c]);
    }
  }

  /** A waiter returns. */
  lemma OtherCallers(h: Header, image: seq<byte>, s: RState, c: nat, k: Caller)
    requires h.Sane() && h.totalSize == |image| && RInv(h, image, s)
    requires c in s.callers && s.callers[c].Waiting? && k.Returned? && CallerOk(s, k)
    ensures RInv(h, image, s.(callers := s.callers[c := k]))
  {
    hide Header.Slice, Header.NumChunks, Header.Span, FlightOk;
    var s' := s.(callers := s.callers[c := k]);
    assert FileOk(h, image, s');
    hide FileOk;
    forall d | d in s'.callers ensures CallerOk(s', s'.callers[d]) {
      if d != c { assert CallerOk(s, s.callers[d]); } else { assert CallerOk(s, k); }
    }
  }

  lemma FlightKeeps(h: Header, image: seq<byte>, s: RState, idx: nat, f: Flight, data: seq<byte>)
    requires h.Sane() && h.totalSize == |image| == |data| && RInv(h, image, s) && idx in s.inflight
    requires FlightOk(h, image, Disk(data, false, {}, None), idx, f)
    requires forall i :: 0 <= i < |h.present| && i != idx ==> h.Slice(data, i) == h.Slice(s.data, i)
    ensures RInv(h, image, SetFlight(s, idx, f).(data := data))
  {
    hide Header.Slice, Header.NumChunks, Header.Span;
    FlightProtocol(s, idx, f, data);
    var s' := SetFlight(s, idx, f).(data := data);
    assert FileOk(h, image, s') by {
      hide FetchesOk, CallersOk;
      RFacts(h, image, s, idx);
      forall i | i in s'.inflight ensures FlightOk(h, image, Disk(data, false, {}, None), i, s'.inflight[i].flight) {
        if i != idx { RFacts(h, image, s, i); }
      }
    }
  }

  lemma FlightProtocol(s: RState, idx: nat, f: Flight, data: seq<byte>)
    requires FetchesOk(s) && CallersOk(s) && idx in s.inflight
    ensures FetchesOk(SetFlight(s, idx, f).(data := data)) && CallersOk(SetFlight(s, idx, f).(data := data))
  {
    var s' := SetFlight(s, idx, f).(data := data);
    forall d | d in s'.callers ensures CallerOk(s', s'.callers[d]) {
      assert CallerOk(s, s.callers[d]);
    }
  }

  lemma FinishFetches(s: RState, c: nat, answer: Answer)
    requires FetchesOk(s) && LeadsFlight(s, c) && s.callers[c].idx < |s.cached|
    ensures FetchesOk(FinishSection(s, c, answer))
  {
  }

  lemma FinishCallers(s: RState, c: nat, answer: Answer)
    requires FetchesOk(s) && CallersOk(s) && LeadsFlight(s, c) && s.callers[c].idx < |s.cached|
    ensures CallersOk(FinishSection(s, c, answer))
  {
    var s' := FinishSection(s, c, answer);
    forall d | d in s'.callers ensures CallerOk(s', s'.callers[d]) {
      if d != c { assert CallerOk(s, s.callers[d]); }
    }
  }

  lemma FinishKeeps(h: Header, image: seq<byte>, s: RState, c: nat, answer: Answer)
    requires h.Sane() && h.totalSize == |image| && RInv(h, image, s) && LeadsFlight(s, c) && s.callers[c].idx < |s.cached|
    requires answer.Nil? ==> FlightOf(s, c).Filling? && FlightOf(s, c).done == |FlightOf(s, c).buf|
    ensures RInv(h, image, FinishSection(s, c, answer))
  {
    hide Header.Slice, Header.NumChunks, Header.Span, FetchesOk, CallersOk;
    var idx := s.callers[c].idx;
    FinishFetches(s, c, answer);
    FinishCallers(s, c, answer);
    RFacts(h, image, s, idx);
    SliceLen(h, s.data, idx);
    SliceLen(h, image, idx);
    if answer.Nil? {
      var f := FlightOf(s, c);
      assert h.Slice(s.data, idx) == h.Slice(s.data, idx)[..f.done];
      assert f.buf == f.buf[..f.done];
    }
  }

  lemma RStepKeepsInv(h: Header, image: seq<byte>, sha: Hash, s: RState, e: REvent)
    requires Baked(h, image, sha) && RInv(h, image, s)
    ensures RInv(h, image, RStep(h, sha, s, e))
  {
    hide Header.Slice, Header.NumChunks, Header.Span, RInv, WriteDisk, EnterSection, WakeSection, FinishSection, AllZero;
    if REnabled(h, sha, s, e) {
      match e {
        case Enter(c, idx) => EnterKeeps(h, image, s, c, idx);
        case Wake(c) => WakeKeeps(h, image, s, c);
        case Cancel(c) => WakeKeeps(h, image, s, c);
        case Verify(c, buf) =>
          var idx := s.callers[c].idx;
          RFacts(h, image, s, idx);
          SliceLen(h, image, idx);
          assert buf == h.Slice(image, idx);
          FlightKeeps(h, image, s, idx, Filling(buf, 0), s.data);
        case Write(c, k) =>
          var idx, f := s.callers[c].idx, FlightOf(s, c);
          RFacts(h, image, s, idx);
          WriteEffect(h, image, Disk(s.data, false, {}, None), idx, f, k);
          SameFile(h, image, WriteDisk(h, Disk(s.data, false, {}, None), idx, f, k), idx, f.(done := f.done + k));
          FlightKeeps(h, image, s, idx, f.(done := f.done + k), WriteFile(h, s.data, idx, f, k));
        case Finish(c, answer) => FinishKeeps(h, image, s, c, answer);
      }
    }
  }

  lemma RFacts(h: Header, image: seq<byte>, s: RState, idx: nat)
    requires h.Sane() && h.totalSize == |image| && RInv(h, image, s) && idx in s.inflight
    ensures |s.data| == h.totalSize && idx < |h.present| == |s.cached| && h.present[idx] && !s.cached[idx]
    ensures FlightOk(h, image, Disk(s.data, false, {}, None), idx, s.inflight[idx].flight)
  {
  }

  /** FlightOk reads only the bytes of the file. */
  lemma SameFile(h: Header, image: seq<byte>, d: Disk, idx: nat, f: Flight)
    requires h.Sane() && h.totalSize == |image| == |d.data| && FlightOk(h, image, d, idx, f)
    ensures FlightOk(h, image, Disk(d.data, false, {}, None), idx, f)
  {
  }

  // ---- what every run guarantees ----

  lemma {:induction false} RRunsKeepInv(h: Header, image: seq<byte>, sha: Hash, s: RState, es: seq<REvent>)
    requires Baked(h, image, sha) && RInv(h, image, s)
    ensures RInv(h, image, RExec(h, sha, s, es))
    ensures SubsetOf(s.cached, RExec(h, sha, s, es).cached)
  {
    hide RInv, RStep, Unforgeable, DigestsMatch, AllZero;
    if es != [] {
      RRunsKeepInv(h, image, sha, s, es[..|es| - 1]);
      var m := RExec(h, sha, s, es[..|es| - 1]);
      RStepKeepsInv(h, image, sha, m, es[|es| - 1]);
      CachedGrows(h, sha, m, es[|es| - 1]);
    }
  }

  lemma CachedGrows(h: Header, sha: Hash, s: RState, e: REvent)
    requires h.Sane()
    ensures SubsetOf(s.cached, RStep(h, sha, s, e).cached)
  {
    hide WriteFile, Accepts;
  }

  /** Single flight, in every interleaving of any number of callers: each chunk has at most one fetch in progress,
      a nil answer is given only for a valid chunk, no waiter misses its wakeup, and a finished fetch of a chunk that is
      not valid has its error recorded. */
  lemma SingleFlight(h: Header, image: seq<byte>, sha: Hash, es: seq<REvent>)
    requires Baked(h, image, sha)
    ensures var s := RExec(h, sha, NewResolver(h, Zeros(h.totalSize)), es);
      && (forall c, d :: c in s.callers && d in s.callers && s.callers[c].Leading? && s.callers[d].Leading? && s.callers[c].idx == s.callers[d].idx ==> c == d)
      && (forall c :: c in s.callers && s.callers[c].Returned? && s.callers[c].answer.Nil? ==> s.callers[c].idx < |s.cached| && s.cached[s.callers[c].idx])
      && (forall c :: c in s.callers && s.callers[c].Waiting? ==>
          var i, ch := s.callers[c].idx, s.callers[c].ch;
          (i in s.inflight && s.inflight[i].ch == ch) || ch in s.closed)
      && (forall c :: c in s.closed ==>
          && c in s.callers && s.callers[c].Returned?
          && var i := s.callers[c].idx; i < |s.cached| && (s.cached[i] || i in s.fetchErr))
  {
    hide RExec, FileOk, Unforgeable, DigestsMatch, AllZero, NewResolver;
    FreshFileOk(h, image);
    RRunsKeepInv(h, image, sha, NewResolver(h, Zeros(h.totalSize)), es);
    var s := RExec(h, sha, NewResolver(h, Zeros(h.totalSize)), es);
    forall c | c in s.callers ensures CallerOk(s, s.callers[c]) {}
  }

  /** A waiter can always move: its channel is closed, or the fetch it waits for has a leader that can finish it. And it is
      told the truth: the error of a leader that failed, and nil if the leader succeeded. */
  lemma NoLostWakeup(h: Header, image: seq<byte>, sha: Hash, es: seq<REvent>, c: nat, a: Answer)
    requires Baked(h, image, sha)
    requires var s := RExec(h, sha, NewResolver(h, Zeros(h.totalSize)), es); c in s.callers && s.callers[c].Waiting?
    ensures var s := RExec(h, sha, NewResolver(h, Zeros(h.totalSize)), es);
      || REnabled(h, sha, s, Wake(c))
      || var i := s.callers[c].idx;
         i in s.inflight &&
         var finish := REvent.Finish(s.inflight[i].ch, a);
         && (a.Err? ==> REnabled(h, sha, s, finish))
         && (REnabled(h, sha, s, finish) ==>
              var t := RStep(h, sha, s, finish);
              REnabled(h, sha, t, Wake(c)) && RStep(h, sha, t, Wake(c)).callers[c] == Returned(i, a))
  {
    hide RExec, FileOk, Unforgeable, DigestsMatch, AllZero, NewResolver, Accepts, WriteFile;
    FreshFileOk(h, image);
    RRunsKeepInv(h, image, sha, NewResolver(h, Zeros(h.totalSize)), es);
    var s := RExec(h, sha, NewResolver(h, Zeros(h.totalSize)), es);
    assert CallerOk(s, s.callers[c]);
  }

  /** What a waiter is told whenever it wakes: nil exactly when the chunk is valid by then, else the last recorded error. */
  lemma WakeTells(h: Header, image: seq<byte>, sha: Hash, s: RState, c: nat)
    requires Baked(h, image, sha) && RInv(h, image, s) && REnabled(h, sha, s, Wake(c))
    ensures var (i, k) := (s.callers[c].idx, RStep(h, sha, s, Wake(c)).callers[c]);
      && k.Returned? && k.idx == i && (k.answer.Nil? <==> s.cached[i])
      && (k.answer.Err? ==> i in s.fetchErr && k.answer.error == s.fetchErr[i])
  {
    hide FileOk, Unforgeable, DigestsMatch, AllZero;
    assert CallerOk(s, s.callers[c]);
  }

  /** What a caller finds: a valid chunk is nil at once, a registered fetch is waited for on its leader's channel, and
      otherwise the caller leads, in that order. */
  lemma EnterTells(h: Header, image: seq<byte>, sha: Hash, s: RState, c: nat, i: nat)
    requires Baked(h, image, sha) && RInv(h, image, s) && REnabled(h, sha, s, Enter(c, i))
    ensures var t := RStep(h, sha, s, Enter(c, i));
      && (t.callers[c] == Returned(i, Nil) <==> s.cached[i])
      && (t.callers[c].Waiting? <==> i in s.inflight)
      && (i in s.inflight ==> t.callers[c].ch in s.callers && s.callers[t.callers[c].ch] == Leading(i))
      && (t.callers[c].Leading? <==> !s.cached[i] && i !in s.inflight)
      && (t.callers[c].Leading? ==> LeadsFlight(t, c) && FlightOf(t, c) == Asking)
      && t.cached == s.cached && t.data == s.data && (forall d :: d in s.callers ==> t.callers[d] == s.callers[d])
  {
    hide FileOk, Unforgeable, DigestsMatch, AllZero;
  }

  /** However the leader finishes, its fetch is no longer registered and its channel is closed, so the next caller leads
      again unless the chunk is valid; it is valid exactly if the leader succeeded, else the error is on record. */
  lemma FinishTells(h: Header, image: seq<byte>, sha: Hash, s: RState, c: nat, a: Answer)
    requires Baked(h, image, sha) && RInv(h, image, s) && REnabled(h, sha, s, REvent.Finish(c, a))
    ensures var (i, t) := (s.callers[c].idx, RStep(h, sha, s, REvent.Finish(c, a)));
      && i !in t.inflight && c in t.closed && t.callers[c] == Returned(i, a)
      && (t.cached[i] <==> a.Nil?)
      && (a.Err? ==> i in t.fetchErr && t.fetchErr[i] == a.error)
      && (forall j :: 0 <= j < |s.cached| && j != i ==> t.cached[j] == s.cached[j] && (j in t.inflight <==> j in s.inflight))
  {
    hide FileOk, Unforgeable, DigestsMatch, AllZero;
  }

  /** Nothing stands in the way of a leader whose source answers with the image's bytes: it verifies, writes and finishes
      with nil. */
  lemma HonestFetchCompletes(h: Header, image: seq<byte>, sha: Hash, s: RState, c: nat, i: nat)
    requires Baked(h, image, sha) && RInv(h, image, s) && REnabled(h, sha, s, Enter(c, i)) && !s.cached[i] && i !in s.inflight
    ensures var buf := h.Slice(image, i);
      var s1 := RStep(h, sha, s, Enter(c, i));
      var s2 := RStep(h, sha, s1, REvent.Verify(c, buf));
      var s3 := RStep(h, sha, s2, REvent.Write(c, |buf|));
      var s4 := RStep(h, sha, s3, REvent.Finish(c, Nil));
      c in s4.callers && s4.callers[c] == Returned(i, Nil) && i < |s4.cached| && s4.cached[i]
  {
    hide Unforgeable, DigestsMatch, AllZero, Accepts, Header.Span, Header.NumChunks, WriteDisk, RInv;
    h.TilesAt(i);
    var buf := h.Slice(image, i);
    assert |s.data| == h.totalSize && |s.cached| == |h.present| by { FileLen(h, image, s); }
    HonestPasses(h, image, sha, i, buf);
    SliceLen(h, image, i);
    var s1 := RStep(h, sha, s, Enter(c, i));
    assert s1 == s.(inflight := s.inflight[i := Fetch(c, Asking)], callers := s.callers[c := Leading(i)]);
    var s2 := RStep(h, sha, s1, REvent.Verify(c, buf));
    assert s2 == SetFlight(s1, i, Filling(buf, 0));
    var s3 := RStep(h, sha, s2, REvent.Write(c, |buf|));
    assert LeadsFlight(s3, c) && FlightOf(s3, c) == Filling(buf, |buf|);
  }

  lemma FileLen(h: Header, image: seq<byte>, s: RState)
    requires h.Sane() && h.totalSize == |image| && RInv(h, image, s)
    ensures |s.data| == h.totalSize && |s.cached| == |h.present|
  {
  }
}
