/** The recursive retry of SharedCache.ensureChunk: k concurrent callers of one chunk. */
module Retry {
  /** A caller between its critical sections. `g` is the number of fetches that had finished when it began to wait,
      which names the channel it waits on; `led` remembers whether it was a leader. */
  datatype Caller = Start | Waiting(g: nat) | Leading | Done(ok: bool, led: bool)

  /** One chunk: whether it is valid, whether a fetch is registered, and how many have finished. */
  datatype Chunk = Chunk(present: bool, inflight: bool, finished: nat, callers: seq<Caller>)

  datatype Event = Enter(c: nat) | Finish(c: nat, ok: bool) | Wake(c: nat) | Cancel(c: nat)

  function Initial(k: nat): Chunk { Chunk(false, false, 0, seq(k, _ => Start)) }

  predicate Enabled(s: Chunk, e: Event) {
    && e.c < |s.callers|
    && match e
       case Enter(c) => s.callers[c].Start?
       case Finish(c, _) => s.callers[c].Leading?
       case Wake(c) => s.callers[c].Waiting? && s.callers[c].g < s.finished
       case Cancel(c) => s.callers[c].Waiting?
  }

  function Step(s: Chunk, e: Event): Chunk
    requires Enabled(s, e)
  {
    match e
    case Enter(c) =>
      if s.present then s.(callers := s.callers[c := Done(true, false)])
      else if s.inflight then s.(callers := s.callers[c := Waiting(s.finished)])
      else s.(inflight := true, callers := s.callers[c := Leading])
    case Finish(c, ok) =>
      s.(present := s.present || ok, inflight := false, finished := s.finished + 1, callers := s.callers[c := Done(ok, true)])
    case Wake(c) => s.(callers := s.callers[c := if s.present then Done(true, false) else Start])
    case Cancel(c) => s.(callers := s.callers[c := Done(false, false)])
  }

  /** A run: every event enabled where it happens. */
  ghost predicate Run(s: Chunk, es: seq<Event>, t: Chunk)
    decreases |es|
  {
    if es == [] then s == t
    else Enabled(s, es[0]) && Run(Step(s, es[0]), es[1..], t)
  }

  function Fetches(s: Chunk): nat { s.finished + (if s.inflight then 1 else 0) }

  predicate Leads(k: Caller) { k.Leading? || (k.Done? && k.led) }

  function LedCount(cs: seq<Caller>): (n: nat)
    ensures n <= |cs|
  {
    if cs == [] then 0 else (if Leads(cs[0]) then 1 else 0) + LedCount(cs[1..])
  }

  lemma {:induction false} LedUpdate(cs: seq<Caller>, i: nat, k: Caller)
    requires i < |cs|
    ensures LedCount(cs[i := k]) == LedCount(cs) - (if Leads(cs[i]) then 1 else 0) + (if Leads(k) then 1 else 0)
  {
    if i > 0 {
      LedUpdate(cs[1..], i - 1, k);
      assert cs[i := k][1..] == cs[1..][i - 1 := k];
    } else {
      assert cs[i := k][1..] == cs[1..];
    }
  }

  /** Fetches are counted by the callers that led one; a waiter's channel is closed or still registered. */
  ghost predicate Inv(s: Chunk) {
    && Fetches(s) == LedCount(s.callers)
    && (s.present ==> !s.inflight)
    && (s.inflight <==> exists c :: 0 <= c < |s.callers| && s.callers[c].Leading?)
    && (forall c, d :: 0 <= c < |s.callers| && 0 <= d < |s.callers| && s.callers[c].Leading? && s.callers[d].Leading? ==> c == d)
    && (forall c :: 0 <= c < |s.callers| && s.callers[c].Waiting? ==>
          s.callers[c].g <= s.finished && (s.callers[c].g == s.finished ==> s.inflight))
    && (forall c :: 0 <= c < |s.callers| && s.callers[c].Done? && s.callers[c].ok ==> s.present)
  }

  lemma {:induction false} InitialInv(k: nat)
    ensures Inv(Initial(k))
  {
    if k > 0 {
      InitialInv(k - 1);
      assert Initial(k).callers[1..] == Initial(k - 1).callers;
    }
  }

  lemma StepInv(s: Chunk, e: Event)
    requires Inv(s) && Enabled(s, e)
    ensures Inv(Step(s, e))
    ensures s.present ==> Step(s, e).present && Fetches(Step(s, e)) == Fetches(s)
  {
    var s' := Step(s, e);
    LedUpdate(s.callers, e.c, s'.callers[e.c]);
    if s'.inflight && e.Enter? && !s.inflight {
      assert s'.callers[e.c].Leading?;
    } else if s.inflight {
      var c :| 0 <= c < |s.callers| && s.callers[c].Leading?;
      assert c != e.c ==> s'.callers[c].Leading?;
    }
  }

  // ---- termination ----

  /** How many more critical sections a caller can still go through. */
  function Weight(s: Chunk, k: Caller): int {
    var n := |s.callers|;
    match k
    case Start => 2 * (n - s.finished) + 2
    case Waiting(g) => 2 * (n - g) + 1
    case Leading => 1
    case Done(_, _) => 0
  }

  function TotalWeight(s: Chunk, cs: seq<Caller>): int {
    if cs == [] then 0 else Weight(s, cs[0]) + TotalWeight(s, cs[1..])
  }

  function Measure(s: Chunk): int { TotalWeight(s, s.callers) }

  /** Replacing one caller, when no other caller's weight grows. */
  lemma {:induction false} WeightUpdate(s: Chunk, s': Chunk, cs: seq<Caller>, i: nat, k: Caller)
    requires i < |cs|
    requires forall j :: 0 <= j < |cs| ==> Weight(s', cs[j]) <= Weight(s, cs[j])
    ensures TotalWeight(s', cs[i := k]) <= TotalWeight(s, cs) - Weight(s, cs[i]) + Weight(s', k)
  {
    if i > 0 {
      WeightUpdate(s, s', cs[1..], i - 1, k);
      assert cs[i := k][1..] == cs[1..][i - 1 := k];
    } else {
      assert cs[i := k][1..] == cs[1..];
      WeightMono(s, s', cs[1..]);
    }
  }

  lemma {:induction false} WeightMono(s: Chunk, s': Chunk, cs: seq<Caller>)
    requires forall j :: 0 <= j < |cs| ==> Weight(s', cs[j]) <= Weight(s, cs[j])
    ensures TotalWeight(s', cs) <= TotalWeight(s, cs)
  {
    if cs != [] { WeightMono(s, s', cs[1..]); }
  }

  lemma {:induction false} WeightNonNeg(s: Chunk, cs: seq<Caller>)
    requires forall j :: 0 <= j < |cs| ==> Weight(s, cs[j]) >= 0
    ensures TotalWeight(s, cs) >= 0
  {
    if cs != [] { WeightNonNeg(s, cs[1..]); }
  }

  /** Every step uses up some of the measure. */
  lemma StepDecreases(s: Chunk, e: Event)
    requires Inv(s) && Enabled(s, e)
    ensures Measure(Step(s, e)) < Measure(s)
  {
    hide LedCount;
    StepInv(s, e);
    var s' := Step(s, e);
    WeightUpdate(s, s', s.callers, e.c, s'.callers[e.c]);
  }

  lemma MeasureNonNeg(s: Chunk)
    requires Inv(s)
    ensures Measure(s) >= 0
  {
    WeightNonNeg(s, s.callers);
  }

  lemma {:induction false} InitialWeight(s: Chunk, k: nat)
    requires s.finished == 0
    ensures TotalWeight(s, Initial(k).callers) == k * (2 * |s.callers| + 2)
  {
    if k > 0 {
      InitialWeight(s, k - 1);
      assert Initial(k).callers[1..] == Initial(k - 1).callers;
    }
  }

  lemma {:induction false} RunBound(s: Chunk, es: seq<Event>, t: Chunk)
    requires Inv(s) && Run(s, es, t)
    ensures Inv(t) && |es| <= Measure(s) - Measure(t) && |t.callers| == |s.callers|
    ensures s.present ==> t.present && Fetches(t) == Fetches(s)
    decreases |es|
  {
    if es != [] {
      StepInv(s, es[0]);
      StepDecreases(s, es[0]);
      RunBound(Step(s, es[0]), es[1..], t);
    }
  }

  /** While a caller has not returned, some caller can move (a leader can always finish: upstream answers). */
  lemma Progress(s: Chunk)
    requires Inv(s) && exists c :: 0 <= c < |s.callers| && !s.callers[c].Done?
    ensures exists e :: Enabled(s, e) && !e.Cancel?
  {
    var c :| 0 <= c < |s.callers| && !s.callers[c].Done?;
    if s.callers[c].Start? {
      assert Enabled(s, Enter(c));
    } else if s.callers[c].Leading? {
      assert Enabled(s, Finish(c, true));
    } else if s.callers[c].g < s.finished {
      assert Enabled(s, Wake(c));
    } else {
      var d :| 0 <= d < |s.callers| && s.callers[d].Leading?;
      assert Enabled(s, Finish(d, true));
    }
  }

  /** k callers, any interleaving, any upstream answers: at most k fetches, at most k(2k+2) critical sections,
      and a run that cannot be extended leaves every caller returned, a nil error only with the chunk valid. */
  lemma EveryCallerReturns(k: nat, es: seq<Event>, t: Chunk)
    requires Run(Initial(k), es, t)
    ensures Fetches(t) <= k && |es| <= k * (2 * k + 2)
    ensures |t.callers| == k
    ensures (forall e :: Enabled(t, e) ==> e.Cancel?) ==> forall c :: 0 <= c < k ==> t.callers[c].Done?
    ensures forall c :: 0 <= c < k && t.callers[c].Done? && t.callers[c].ok ==> t.present
  {
    InitialInv(k);
    RunBound(Initial(k), es, t);
    MeasureNonNeg(t);
    InitialWeight(Initial(k), k);
    if exists c :: 0 <= c < k && !t.callers[c].Done? {
      Progress(t);
    }
  }

  /** If the first fetch succeeds it is the only one, however the other callers are interleaved with it. */
  lemma FirstSuccessIsOnly(k: nat, before: seq<Event>, s: Chunk, c: nat, after: seq<Event>, t: Chunk)
    requires Run(Initial(k), before, s) && s.finished == 0 && Enabled(s, Finish(c, true))
    requires Run(Step(s, Finish(c, true)), after, t)
    ensures Fetches(t) == 1 && t.present
  {
    InitialInv(k);
    RunBound(Initial(k), before, s);
    StepInv(s, Finish(c, true));
    RunBound(Step(s, Finish(c, true)), after, t);
  }
}
