/** The shared cache above the governor: what a warm-up is charged, and when it meets the egress cap
    (nbdstream/origin_linux.go builds this stack, with hardCap = multiplier * present chunks * chunk size). */
module WarmUp {
  import opened Bytes
  import opened Geometry
  import opened Elision
  import opened CacheMachine
  import Governor

  /** One cache lifetime. `charged[i]`: chunk i has been paid for; `asked`: past the cap check, not yet answered; `lost`:
      bytes that were charged and came to nothing (a short answer, a wrong digest, a failed local write). */
  datatype Stack = Stack(s: State, m: Governor.Meter, asked: set<nat>, charged: seq<bool>, lost: nat, rejected: bool)

  datatype StackEvent = Cache(e: Event) | Check(idx: nat) | Answer(idx: nat, read: nat, failed: bool)

  /** What can happen while the cache stays open: only a chunk that was charged in full is verified, and a fetch that is
      waiting for its answer does not end. */
  ghost predicate Allowed(h: Header, sha: Hash, t: Stack, ev: StackEvent)
    requires h.Sane()
  {
    match ev
    case Cache(e) =>
      && Enabled(h, sha, t.s, e)
      && !(e.OpenWarm? || e.OpenReset? || e.ResetEmpty? || e.ResetSize? || e.Kill? || e.PowerLoss?)
      && (e.Verify? ==> e.idx < |t.charged| && t.charged[e.idx])
      && (e.Finish? && !e.ok ==> e.idx !in t.asked)
    case Check(idx) => t.s.proc.Up? && idx in t.s.proc.s.inflight && t.s.proc.s.inflight[idx].Asking? && idx !in t.asked && idx < |t.charged| && !t.charged[idx]
    case Answer(idx, read, failed) => idx in t.asked && idx < |t.charged| && read <= ChunkLen(h, idx)
  }

  /** ReadAt of the governor on behalf of a leader: the cap check of one whole chunk, then the charge of what was read. */
  ghost function StackStep(h: Header, sha: Hash, t: Stack, ev: StackEvent): Stack
    requires h.Sane()
  {
    if !Allowed(h, sha, t, ev) then t
    else match ev
      case Cache(e) =>
        var t' := t.(s := Apply(h, sha, t.s, e));
        if e.Finish? && !e.ok && e.idx < |t.charged| && t.charged[e.idx] then
          t'.(charged := t.charged[e.idx := false], lost := t.lost + ChunkLen(h, e.idx))
        else t'
      case Check(idx) =>
        var n := ChunkLen(h, idx);
        if Governor.UnderCap(t.m, n) then t.(asked := t.asked + {idx}) else t.(rejected := true)
      case Answer(idx, read, failed) =>
        var t' := t.(asked := t.asked - {idx});
        if failed then t'
        else if read == ChunkLen(h, idx) then t'.(charged := t.charged[idx := true], m := t.m.(lifetime := t.m.lifetime + read))
        else t'.(lost := t.lost + read, m := t.m.(lifetime := t.m.lifetime + read))
  }

  /** The stack's checks and charges are the governor's own, for a read of the whole chunk. */
  lemma StackIsMeter(h: Header, sha: Hash, t: Stack, idx: nat, read: nat, failed: bool)
    requires h.Sane() && ChunkLen(h, idx) > 0
    ensures Allowed(h, sha, t, Check(idx)) ==>
      var (t', n) := (StackStep(h, sha, t, Check(idx)), ChunkLen(h, idx));
      && t'.m == t.m
      && (idx in t'.asked <==> Governor.MeterStep(t.m, Governor.Begin(n)).inflight == t.m.inflight + [n])
      && (t'.rejected <==> t.rejected || idx !in t'.asked)
    ensures Allowed(h, sha, t, Answer(idx, read, failed)) ==>
      var (t', n) := (StackStep(h, sha, t, Answer(idx, read, failed)), ChunkLen(h, idx));
      && t'.m.lifetime == Governor.MeterStep(Governor.Meter(t.m.hardCap, t.m.lifetime, [n]), Governor.End(0, read, failed)).lifetime
      && (t'.charged[idx] <==> t.charged[idx] || (!failed && read == n))
      && t'.lost == t.lost + if !failed && read < n then read else 0
  {
    hide ChunkLen, Enabled;
    assert t.m.inflight != t.m.inflight + [ChunkLen(h, idx)] by {
      assert |t.m.inflight| != |t.m.inflight + [ChunkLen(h, idx)]|;
    }
  }

  ghost function StackRun(h: Header, sha: Hash, t: Stack, es: seq<StackEvent>): Stack
    requires h.Sane()
  {
    if es == [] then t else StackStep(h, sha, StackRun(h, sha, t, es[..|es| - 1]), es[|es| - 1])
  }

  /** A newly opened cache and its own new governor. */
  function NewStack(h: Header, s: State, cap: nat): Stack {
    Stack(s, Governor.Meter(cap, 0, []), {}, seq(|h.present|, _ => false), 0, false)
  }

  function ChunkLen(h: Header, i: nat): nat { var l := h.Span(i).1; if l < 0 then 0 else l }

  /** Total length of the flagged chunks. */
  function Weight(h: Header, bits: seq<bool>): nat {
    if bits == [] then 0
    else Weight(h, bits[..|bits| - 1]) + (if bits[|bits| - 1] then ChunkLen(h, |bits| - 1) else 0)
  }

  lemma {:induction false} WeightUpdate(h: Header, bits: seq<bool>, i: nat)
    requires i < |bits| && !bits[i]
    ensures Weight(h, bits[i := true]) == Weight(h, bits) + ChunkLen(h, i)
  {
    var n := |bits| - 1;
    if i == n {
      assert bits[i := true][..n] == bits[..n];
    } else {
      WeightUpdate(h, bits[..n], i);
      assert bits[i := true][..n] == bits[..n][i := true];
    }
  }

  lemma {:induction false} WeightMono(h: Header, a: seq<bool>, b: seq<bool>)
    requires SubsetOf(a, b)
    ensures Weight(h, a) <= Weight(h, b)
  {
    if a != [] { WeightMono(h, a[..|a| - 1], b[..|a| - 1]); }
  }

  lemma {:induction false} WeightNone(h: Header, a: seq<bool>)
    requires forall i :: 0 <= i < |a| ==> !a[i]
    ensures Weight(h, a) == 0
  {
    if a != [] { WeightNone(h, a[..|a| - 1]); }
  }

  /** The working set of OpenOrigin covers the real lengths, short last chunk included. */
  lemma {:induction false} WeightWithinWorkingSet(h: Header, bits: seq<bool>)
    requires h.Sane() && |bits| <= |h.present|
    ensures Weight(h, bits) <= Count(bits) * h.chunkSize
  {
    if bits != [] {
      var n := |bits| - 1;
      WeightWithinWorkingSet(h, bits[..n]);
      h.TilesAt(n);
      assert (Count(bits[..n]) + 1) * h.chunkSize == Count(bits[..n]) * h.chunkSize + h.chunkSize;
    }
  }

  /** Only chunks that are valid or being fetched have been paid for, each once. */
  ghost predicate StackInv(h: Header, image: seq<byte>, t: Stack)
    requires h.Sane() && h.totalSize == |image|
  {
    && Inv(h, image, t.s) && t.s.proc.Up?
    && SubsetOf(t.charged, h.present)
    && t.m.lifetime == Weight(h, t.charged) + t.lost
    && (t.rejected ==> 0 < t.m.hardCap < Weight(h, h.present) + t.lost)
    && (forall i :: 0 <= i < |t.charged| && t.charged[i] ==> t.s.proc.s.present[i] || i in t.s.proc.s.inflight)
    && (forall i :: i in t.asked ==> i < |t.charged| && !t.charged[i] && i in t.s.proc.s.inflight && t.s.proc.s.inflight[i].Asking?)
  }

  lemma StackStepKeeps(h: Header, image: seq<byte>, sha: Hash, t: Stack, ev: StackEvent)
    requires Baked(h, image, sha) && StackInv(h, image, t)
    ensures StackInv(h, image, StackStep(h, sha, t, ev)) && StackStep(h, sha, t, ev).m.hardCap == t.m.hardCap
  {
    if Allowed(h, sha, t, ev) {
      match ev {
        case Cache(e) =>
          hide Inv, Step, Weight, Unforgeable, DigestsMatch, AllZero;
          StepIsApply(h, sha, t.s, e);
          StepKeepsInv(h, image, sha, t.s, e);
          CacheStepKeeps(h, image, sha, t, e);
        case Check(idx) => CheckKeeps(h, image, sha, t, idx);
        case Answer(idx, read, failed) => AnswerKeeps(h, image, sha, t, idx, read, failed);
      }
    }
  }

  lemma CheckKeeps(h: Header, image: seq<byte>, sha: Hash, t: Stack, idx: nat)
    requires Baked(h, image, sha) && StackInv(h, image, t) && Allowed(h, sha, t, Check(idx))
    ensures StackInv(h, image, StackStep(h, sha, t, Check(idx)))
    ensures StackStep(h, sha, t, Check(idx)).m == t.m
  {
    hide Inv, Weight, Unforgeable, DigestsMatch, AllZero, ChunkLen, Enabled;
    InflightIsPresent(h, image, t.s, idx);
    WeightUpdate(h, t.charged, idx);
    WeightMono(h, t.charged[idx := true], h.present);
  }

  lemma AnswerKeeps(h: Header, image: seq<byte>, sha: Hash, t: Stack, idx: nat, read: nat, failed: bool)
    requires Baked(h, image, sha) && StackInv(h, image, t) && Allowed(h, sha, t, Answer(idx, read, failed))
    ensures StackInv(h, image, StackStep(h, sha, t, Answer(idx, read, failed)))
    ensures StackStep(h, sha, t, Answer(idx, read, failed)).m.hardCap == t.m.hardCap
  {
    hide Inv, Weight, Unforgeable, DigestsMatch, AllZero, ChunkLen, Enabled;
    InflightIsPresent(h, image, t.s, idx);
    if !failed { WeightUpdate(h, t.charged, idx); }
  }

  lemma StepIsApply(h: Header, sha: Hash, s: State, e: Event)
    requires h.Sane() && Enabled(h, sha, s, e)
    ensures Step(h, sha, s, e) == Apply(h, sha, s, e)
  {
  }

  lemma InflightIsPresent(h: Header, image: seq<byte>, s: State, idx: nat)
    requires h.Sane() && h.totalSize == |image| && Inv(h, image, s) && s.proc.Up?
    ensures |s.proc.s.present| == |h.present|
    ensures idx in s.proc.s.inflight ==> idx < |h.present| && h.present[idx] && !s.proc.s.present[idx]
  {
  }

  lemma CacheStepKeeps(h: Header, image: seq<byte>, sha: Hash, t: Stack, e: Event)
    requires Baked(h, image, sha) && StackInv(h, image, t) && Allowed(h, sha, t, Cache(e))
    requires Inv(h, image, Apply(h, sha, t.s, e))
    ensures StackInv(h, image, StackStep(h, sha, t, Cache(e))) && StackStep(h, sha, t, Cache(e)).m == t.m
  {
    hide Inv, Weight, Unforgeable, DigestsMatch, AllZero, WriteDisk, HeaderCodec.EncodeBitmap, Accepts, ReadBits, Header.Span, Header.NumChunks;
    if e.Lead? || e.Finish? { InflightIsPresent(h, image, t.s, e.idx); }
    if e.Finish? && !e.ok && t.charged[e.idx] {
      var rest := t.charged[e.idx := false];
      WeightUpdate(h, rest, e.idx);
      assert rest[e.idx := true] == t.charged;
    }
  }

  lemma {:induction false} StackRunKeeps(h: Header, image: seq<byte>, sha: Hash, t: Stack, es: seq<StackEvent>)
    requires Baked(h, image, sha) && StackInv(h, image, t)
    ensures StackInv(h, image, StackRun(h, sha, t, es)) && StackRun(h, sha, t, es).m.hardCap == t.m.hardCap
  {
    hide StackInv, StackStep, Unforgeable, DigestsMatch, AllZero;
    if es != [] {
      StackRunKeeps(h, image, sha, t, es[..|es| - 1]);
      StackStepKeeps(h, image, sha, StackRun(h, sha, t, es[..|es| - 1]), es[|es| - 1]);
    }
  }

  /** int64(multiplier * workingSet), and no cap when either is zero. */
  function CapFor(multiplier: real, workingSet: nat): nat
    requires multiplier >= 0.0
  {
    if multiplier > 0.0 && workingSet > 0 then
      MulNonNeg(multiplier, workingSet as real);
      (multiplier * workingSet as real).Floor
    else 0
  }

  lemma MulNonNeg(a: real, b: real)
    requires a >= 0.0 && b >= 0.0
    ensures a * b >= 0.0
    ensures a >= 1.0 ==> a * b >= b
  {
  }

  /** In any interleaving of readers over one cache lifetime the bytes charged never exceed those of the chunks that are
      valid or being fetched by more than what came to nothing; and a read is refused only if the present chunks and what
      came to nothing are together more than the cap. */
  lemma WarmUpBound(h: Header, image: seq<byte>, sha: Hash, s: State, cap: nat, es: seq<StackEvent>)
    requires Baked(h, image, sha) && Inv(h, image, s) && s.proc.Up? && s.proc.s.inflight == map[]
    ensures var t := StackRun(h, sha, NewStack(h, s, cap), es);
      && t.m.lifetime == Weight(h, t.charged) + t.lost <= Weight(h, h.present) + t.lost
      && t.s.proc.Up?
      && (forall i :: 0 <= i < |t.charged| && t.charged[i] ==> (i in t.s.proc.s.inflight || (i < |t.s.proc.s.present| && t.s.proc.s.present[i])))
      && (t.rejected ==> 0 < cap < Weight(h, h.present) + t.lost)
  {
    hide Inv, Weight, Unforgeable, DigestsMatch, AllZero, StackRun, StackStep;
    var t0 := NewStack(h, s, cap);
    WeightNone(h, t0.charged);
    StackRunKeeps(h, image, sha, t0, es);
    var t := StackRun(h, sha, t0, es);
    WeightMono(h, t.charged, h.present);
    InflightIsPresent(h, image, t.s, 0);
  }

  /** So an honest warm-up is never refused: with a multiplier of at least one, as long as nothing charged came to
      nothing. */
  lemma HonestWarmUpNeverCapped(h: Header, image: seq<byte>, sha: Hash, s: State, multiplier: real, es: seq<StackEvent>)
    requires Baked(h, image, sha) && Inv(h, image, s) && s.proc.Up? && s.proc.s.inflight == map[]
    requires multiplier >= 1.0
    ensures var t := StackRun(h, sha, NewStack(h, s, CapFor(multiplier, Count(h.present) * h.chunkSize)), es);
      t.lost == 0 ==> !t.rejected && t.m.lifetime <= Weight(h, h.present) <= Count(h.present) * h.chunkSize
  {
    hide Inv, Weight, Unforgeable, DigestsMatch, AllZero, StackRun, StackStep, CapFor;
    WeightWithinWorkingSet(h, h.present);
    CapCovers(multiplier, Count(h.present) * h.chunkSize);
    WarmUpBound(h, image, sha, s, CapFor(multiplier, Count(h.present) * h.chunkSize), es);
  }

  lemma CapCovers(multiplier: real, ws: nat)
    requires multiplier >= 1.0
    ensures CapFor(multiplier, ws) == 0 || CapFor(multiplier, ws) >= ws
    ensures CapFor(multiplier, ws) as real <= multiplier * ws as real < CapFor(multiplier, ws) as real + 1.0
  {
    MulNonNeg(multiplier, ws as real);
  }
}
