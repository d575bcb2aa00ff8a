/** The retry of ensureChunk, as Retry counts it, is what the cache's step system does to one chunk. */
module RetryOnCache {
  import opened Bytes
  import opened Geometry
  import opened Elision
  import HeaderCodec
  import C = CacheMachine
  import R = Retry

  /** The chunk is valid, and has a registered fetch, in both. */
  ghost predicate Agree(s: C.State, idx: nat, c: R.Chunk) {
    && s.proc.Up? && idx < |s.proc.s.present|
    && c.present == s.proc.s.present[idx] && c.inflight == (idx in s.proc.s.inflight)
  }

  predicate Running(e: C.Event) {
    !(e.OpenWarm? || e.OpenReset? || e.ResetEmpty? || e.ResetSize? || e.Kill? || e.PowerLoss?)
  }

  /** Registering a fetch of the chunk is what the next caller to enter does. */
  lemma LeadIsEnter(h: Header, sha: Hash, s: C.State, idx: nat, c: R.Chunk, k: nat)
    requires h.Sane() && Agree(s, idx, c) && C.Enabled(h, sha, s, C.Lead(idx)) && R.Enabled(c, R.Enter(k))
    ensures Agree(C.Step(h, sha, s, C.Lead(idx)), idx, R.Step(c, R.Enter(k)))
    ensures R.Step(c, R.Enter(k)) == c.(inflight := true, callers := c.callers[k := R.Leading])
  {
    hide Header.NumChunks, Header.Span;
  }

  /** Finishing it is what its one leader does. */
  lemma FinishIsFinish(h: Header, sha: Hash, s: C.State, idx: nat, c: R.Chunk, ok: bool) returns (k: nat)
    requires h.Sane() && Agree(s, idx, c) && R.Inv(c) && C.Enabled(h, sha, s, C.Finish(idx, ok))
    ensures R.Enabled(c, R.Finish(k, ok)) && Agree(C.Step(h, sha, s, C.Finish(idx, ok)), idx, R.Step(c, R.Finish(k, ok)))
    ensures forall j :: R.Enabled(c, R.Finish(j, ok)) ==> j == k
  {
    hide Header.NumChunks, Header.Span;
    k :| 0 <= k < |c.callers| && c.callers[k].Leading?;
  }

  /** Nothing else the cache does touches the chunk's callers. */
  lemma OthersLeaveIt(h: Header, sha: Hash, s: C.State, idx: nat, c: R.Chunk, e: C.Event)
    requires h.Sane() && Agree(s, idx, c) && C.Enabled(h, sha, s, e) && Running(e) && e != C.Lead(idx) && !(e.Finish? && e.idx == idx)
    ensures Agree(C.Step(h, sha, s, e), idx, c)
  {
    hide C.WriteDisk, C.Splice, C.Accepts, C.ReadBits, Header.NumChunks, Header.Span, HeaderCodec.EncodeBitmap;
  }

  /** And every step of a caller that touches the chunk is one the cache can take: a caller leads exactly when the cache
      may register a fetch, and a leader may always give up. */
  lemma RetryStepIsCacheStep(h: Header, sha: Hash, s: C.State, idx: nat, c: R.Chunk, ev: R.Event)
    requires h.Sane() && h.IsPresent(idx) && Agree(s, idx, c) && R.Inv(c) && R.Enabled(c, ev)
    ensures var c' := R.Step(c, ev);
            match ev
            case Enter(k) => (c'.callers == c.callers[k := R.Leading] <==> C.Enabled(h, sha, s, C.Lead(idx))) && (!C.Enabled(h, sha, s, C.Lead(idx)) ==> Agree(s, idx, c'))
            case Finish(k, ok) => C.Enabled(h, sha, s, C.Finish(idx, false)) && (!ok ==> Agree(C.Step(h, sha, s, C.Finish(idx, false)), idx, c'))
            case _ => Agree(s, idx, c')
  {
    hide C.WriteDisk, C.Splice, C.Accepts, C.ReadBits, Header.NumChunks, Header.Span, AllZero;
    if ev.Finish? {
      assert c.callers[ev.c].Leading? && c.inflight;
    }
    if ev.Enter? && c.callers[ev.c].Start? {
      assert R.Leading != R.Waiting(c.finished) && c.callers[ev.c := R.Leading][ev.c] == R.Leading;
    }
  }
}
