/** The egress governor: a debt-style token bucket and a lifetime cap (diskstream/govsource.go).
    Time is a real number of seconds; bytes and rates are exact. */
module Governor {
  // ---- the token bucket ----

  datatype Bucket = Bucket(rate: real, burst: real, tokens: real, last: real)

  /** One reservation: when it was made, for how many bytes, and when its wait is over. */
  datatype Admission = Admission(bytes: real, at: real, release: real)

  function MinR(a: real, b: real): real { if a < b then a else b }

  function MaxR(a: real, b: real): real { if a < b then b else a }

  function NewBucket(rate: real, burst: real, t0: real): Bucket { Bucket(rate, burst, burst, t0) }

  /** reserveLocked at time `now`, when a rate is set: the new bucket and the wait. */
  function Reserve(b: Bucket, now: real, n: real): (Bucket, real)
    requires b.rate > 0.0
  {
    var elapsed := now - b.last;
    var r := if elapsed > 0.0 then b.(tokens := MinR(b.tokens + elapsed * b.rate, b.burst), last := now) else b;
    var t := r.(tokens := r.tokens - n);
    (t, if t.tokens >= 0.0 then 0.0 else -t.tokens / t.rate)
  }

  /** The admissions of a list of requests (time, bytes), in the order the lock serialises them. */
  function Admit(b: Bucket, reqs: seq<(real, real)>): seq<Admission>
    requires b.rate > 0.0
    decreases |reqs|
  {
    if reqs == [] then []
    else
      var (at, n) := reqs[0];
      var (b', wait) := Reserve(b, at, n);
      [Admission(n, at, at + wait)] + Admit(b', reqs[1..])
  }

  /** The clock does not run backwards and requests are for a positive number of bytes. */
  predicate Monotone(last: real, reqs: seq<(real, real)>)
    decreases |reqs|
  {
    reqs == [] || (last <= reqs[0].0 && reqs[0].1 >= 0.0 && Monotone(reqs[0].0, reqs[1..]))
  }

  /** Bytes of the reads whose wait is over by time T. */
  function Released(a: seq<Admission>, T: real): real {
    if a == [] then 0.0 else (if a[0].release <= T then a[0].bytes else 0.0) + Released(a[1..], T)
  }

  /** Bytes the rate allows in t seconds. */
  function Allowed(rate: real, t: real): real { rate * t }

  /** The bucket's clock in bytes: what the rate has paid for by `last`, less the tokens in hand. */
  function Paid(b: Bucket): real { Allowed(b.rate, b.last) - b.tokens }

  lemma AllowedMono(rate: real, a: real, b: real)
    requires rate >= 0.0 && a <= b
    ensures Allowed(rate, a) <= Allowed(rate, b)
  {
  }

  lemma AllowedAdds(rate: real, a: real, b: real)
    ensures Allowed(rate, a + b) == Allowed(rate, a) + Allowed(rate, b)
  {
  }

  lemma AllowedWait(rate: real, debt: real)
    requires rate > 0.0
    ensures Allowed(rate, debt / rate) == debt
    ensures debt > 0.0 ==> debt / rate > 0.0
  {
  }

  /** A reservation moves the clock by exactly its own bytes, from where it was or from a full burst behind now, whichever
      is later; it is released as soon as the clock is reached, and no sooner. */
  lemma ReservePays(b: Bucket, now: real, n: real)
    requires b.rate > 0.0 && b.tokens <= b.burst && now >= b.last && n >= 0.0
    ensures var (b', wait) := Reserve(b, now, n);
      && b'.rate == b.rate && b'.burst == b.burst && b'.last == now && b'.tokens <= b'.burst
      && Paid(b') >= Paid(b) + n
      && Paid(b') == MaxR(Paid(b), Allowed(b.rate, now) - b.burst) + n
      && wait >= 0.0 && Allowed(b.rate, now + wait) >= Paid(b')
      && (wait > 0.0 ==> Allowed(b.rate, now + wait) == Paid(b'))
      && (wait == 0.0 <==> Paid(b') <= Allowed(b.rate, now))
  {
    var (b', wait) := Reserve(b, now, n);
    var e := now - b.last;
    assert e * b.rate == Allowed(b.rate, e);
    AllowedAdds(b.rate, b.last, e);
    AllowedAdds(b.rate, now, wait);
    AllowedMono(b.rate, 0.0, wait) by { if b'.tokens < 0.0 { AllowedWait(b.rate, -b'.tokens); } }
    if b'.tokens < 0.0 { AllowedWait(b.rate, -b'.tokens); }
  }

  /** What is released by T fits between the bucket's clock and what the rate allows by T. */
  lemma {:induction false} ReleasedBound(b: Bucket, reqs: seq<(real, real)>, T: real)
    requires b.rate > 0.0 && b.tokens <= b.burst && Monotone(b.last, reqs)
    ensures 0.0 <= Released(Admit(b, reqs), T)
    ensures Released(Admit(b, reqs), T) > 0.0 ==> Released(Admit(b, reqs), T) <= Allowed(b.rate, T) - Paid(b)
    decreases |reqs|
  {
    hide Paid, Reserve, Allowed;
    if reqs != [] {
      var (now, n) := reqs[0];
      ReservePays(b, now, n);
      var (b', wait) := Reserve(b, now, n);
      ReleasedBound(b', reqs[1..], T);
      assert Admit(b, reqs)[1..] == Admit(b', reqs[1..]);
      if now + wait <= T { AllowedMono(b.rate, now + wait, T); }
    }
  }

  /** Rate bound: whatever the sequence of reads, including reads larger than the burst and debt carried between
      readers, the bytes released from their wait by time T are at most burst + rate * (T - t0). */
  lemma RateBound(rate: real, burst: real, t0: real, reqs: seq<(real, real)>, T: real)
    requires rate > 0.0 && burst >= 0.0 && T >= t0 && Monotone(t0, reqs)
    ensures Released(Admit(NewBucket(rate, burst, t0), reqs), T) <= burst + rate * (T - t0)
  {
    hide Admit, Released;
    ReleasedBound(NewBucket(rate, burst, t0), reqs, T);
    assert rate * (T - t0) == Allowed(rate, T - t0);
    AllowedAdds(rate, t0, T - t0);
    assert t0 + (T - t0) == T;
    AllowedMono(rate, 0.0, T - t0);
    hide Allowed;
  }

  /** The bound is reached: one read of burst + rate * d bytes at t0 is released at exactly t0 + d. */
  lemma RateBoundTight(rate: real, burst: real, t0: real, d: real)
    requires rate > 0.0 && burst >= 0.0 && d >= 0.0
    ensures var reqs := [(t0, burst + rate * d)];
      Monotone(t0, reqs) && Released(Admit(NewBucket(rate, burst, t0), reqs), t0 + d) == burst + rate * (t0 + d - t0)
  {
    var n := burst + rate * d;
    AllowedMono(rate, 0.0, d);
    var b := NewBucket(rate, burst, t0);
    var (b', wait) := Reserve(b, t0, n);
    assert b'.tokens == -(rate * d);
    assert wait == d by { if d > 0.0 { assert rate * d / rate == d; } }
    var reqs := [(t0, n)];
    assert reqs[1..] == [];
    assert Admit(b, reqs) == [Admission(n, t0, t0 + wait)];
    var a := Admit(b, reqs);
    assert a[1..] == [];
  }

  // ---- the lifetime cap ----

  /** lifetime bytes charged, and the reads admitted but not yet charged. */
  datatype Meter = Meter(hardCap: nat, lifetime: nat, inflight: seq<nat>)

  datatype MeterEvent = Begin(n: nat) | End(i: nat, read: nat, failed: bool)

  /** The cap check of ReadAt; zero means no cap. */
  predicate UnderCap(m: Meter, n: nat) { m.hardCap == 0 || m.lifetime + n <= m.hardCap }

  function Remove(s: seq<nat>, i: nat): seq<nat>
    requires i < |s|
  {
    s[..i] + s[i + 1..]
  }

  /** Admission and charge are separate critical sections; a failed fetch is never charged. */
  function MeterStep(m: Meter, e: MeterEvent): Meter {
    match e
    case Begin(n) => if n > 0 && UnderCap(m, n) then m.(inflight := m.inflight + [n]) else m
    case End(i, read, failed) =>
      if i < |m.inflight| && read <= m.inflight[i] then
        Meter(m.hardCap, if failed then m.lifetime else m.lifetime + read, Remove(m.inflight, i))
      else m
  }

  function MeterRun(m: Meter, es: seq<MeterEvent>): Meter {
    if es == [] then m else MeterStep(MeterRun(m, es[..|es| - 1]), es[|es| - 1])
  }

  function Sum(s: seq<nat>): nat { if s == [] then 0 else Sum(s[..|s| - 1]) + s[|s| - 1] }

  lemma {:induction false} SumRemove(s: seq<nat>, i: nat)
    requires i < |s|
    ensures Sum(Remove(s, i)) == Sum(s) - s[i]
  {
    var n := |s| - 1;
    if i < n {
      SumRemove(s[..n], i);
      assert Remove(s, i)[..n - 1] == Remove(s[..n], i);
    } else {
      assert Remove(s, i) == s[..n];
    }
  }

  lemma {:induction false} SumBound(s: seq<nat>, m: nat)
    requires forall i :: 0 <= i < |s| ==> s[i] <= m
    ensures Sum(s) <= |s| * m
  {
    if s != [] { SumBound(s[..|s| - 1], m); }
  }

  /** At every moment of the run at most k reads are in flight, each of at most m bytes. */
  ghost predicate AtMost(k: nat, m: nat, start: Meter, es: seq<MeterEvent>) {
    forall j :: 0 <= j <= |es| ==>
      var f := MeterRun(start, es[..j]).inflight;
      |f| <= k && forall i :: 0 <= i < |f| ==> f[i] <= m
  }

  /** Cap under concurrency: with at most k readers of at most m bytes each, what is charged plus what is in flight
      never exceeds the cap by more than (k-1) reads. */
  lemma {:induction false} CapBound(cap: nat, k: nat, m: nat, es: seq<MeterEvent>)
    requires cap > 0 && k > 0 && AtMost(k, m, Meter(cap, 0, []), es)
    ensures var s := MeterRun(Meter(cap, 0, []), es);
      s.hardCap == cap && s.lifetime + Sum(s.inflight) <= cap + (k - 1) * m
  {
    var start := Meter(cap, 0, []);
    if es != [] {
      var n := |es| - 1;
      forall j | 0 <= j <= n ensures es[..n][..j] == es[..j] {}
      CapBound(cap, k, m, es[..n]);
      var s, e := MeterRun(start, es[..n]), es[n];
      assert es[..|es|] == es;
      var s' := MeterStep(s, e);
      match e {
        case Begin(b) =>
          if b > 0 && UnderCap(s, b) {
            assert s'.inflight[..|s.inflight|] == s.inflight;
            SumBound(s.inflight, m);
            assert |s.inflight| * m <= (k - 1) * m by { MulLeNat(|s.inflight|, k - 1, m); }
          }
        case End(i, read, failed) =>
          if i < |s.inflight| && read <= s.inflight[i] { SumRemove(s.inflight, i); }
      }
    }
  }

  lemma MulLeNat(a: nat, b: nat, c: nat)
    requires a <= b
    ensures a * c <= b * c
  {
  }

  /** Hence sequential readers never pass the cap. */
  lemma SequentialStaysUnderCap(cap: nat, m: nat, es: seq<MeterEvent>)
    requires cap > 0 && AtMost(1, m, Meter(cap, 0, []), es)
    ensures MeterRun(Meter(cap, 0, []), es).lifetime <= cap
  {
    CapBound(cap, 1, m, es);
  }

  // The bound is reached: reads of one byte, one after the other, charge all but m bytes of the cap; then k readers of m
  // bytes all pass the check before the first of them is charged.

  function Charges(x: nat): seq<MeterEvent> { if x == 0 then [] else Charges(x - 1) + [Begin(1)] + [End(0, 1, false)] }

  function Begins(x: nat, k: nat, m: nat): seq<MeterEvent> { if k == 0 then Charges(x) else Begins(x, k - 1, m) + [Begin(m)] }

  function Ends(x: nat, k: nat, m: nat, j: nat): seq<MeterEvent> {
    if j == 0 then Begins(x, k, m) else Ends(x, k, m, j - 1) + [End(0, m, false)]
  }

  /** es leads here with at most k readers of at most m bytes on the way. */
  ghost predicate Leads(cap: nat, k: nat, m: nat, es: seq<MeterEvent>, to: Meter) {
    MeterRun(Meter(cap, 0, []), es) == to && AtMost(k, m, Meter(cap, 0, []), es)
  }

  lemma LeadsOn(cap: nat, k: nat, m: nat, es: seq<MeterEvent>, s: Meter, e: MeterEvent)
    requires Leads(cap, k, m, es, s)
    requires var f := MeterStep(s, e).inflight; |f| <= k && forall i :: 0 <= i < |f| ==> f[i] <= m
    ensures Leads(cap, k, m, es + [e], MeterStep(s, e))
  {
    hide MeterStep;
    var all, start := es + [e], Meter(cap, 0, []);
    assert all[..|es|] == es && all[..|all|] == all;
    forall j | 0 <= j <= |all|
      ensures var f := MeterRun(start, all[..j]).inflight; |f| <= k && forall i :: 0 <= i < |f| ==> f[i] <= m
    {
      if j <= |es| { assert all[..j] == es[..j]; }
    }
  }

  lemma {:induction false} ChargesLead(cap: nat, k: nat, m: nat, x: nat)
    requires k > 0 && 0 < m && x <= cap && cap > 0
    ensures Leads(cap, k, m, Charges(x), Meter(cap, x, []))
  {
    if x > 0 {
      ChargesLead(cap, k, m, x - 1);
      LeadsOn(cap, k, m, Charges(x - 1), Meter(cap, x - 1, []), Begin(1));
      assert Remove([1], 0) == [];
      LeadsOn(cap, k, m, Charges(x - 1) + [Begin(1)], Meter(cap, x - 1, [1]), End(0, 1, false));
    }
  }

  lemma {:induction false} BeginsLead(cap: nat, k: nat, m: nat, j: nat)
    requires 0 < m <= cap && j <= k && k > 0
    ensures Leads(cap, k, m, Begins(cap - m, j, m), Meter(cap, cap - m, seq(j, _ => m)))
  {
    if j == 0 {
      ChargesLead(cap, k, m, cap - m);
      assert seq(0, _ => m) == [];
    } else {
      BeginsLead(cap, k, m, j - 1);
      assert seq(j - 1, _ => m) + [m] == seq(j, _ => m);
      LeadsOn(cap, k, m, Begins(cap - m, j - 1, m), Meter(cap, cap - m, seq(j - 1, _ => m)), Begin(m));
    }
  }

  lemma EndStep(cap: nat, m: nat, charged: nat, rest: nat)
    ensures MeterStep(Meter(cap, charged, seq(rest + 1, _ => m)), End(0, m, false)) == Meter(cap, charged + m, seq(rest, _ => m))
  {
    assert Remove(seq(rest + 1, _ => m), 0) == seq(rest, _ => m);
  }

  lemma {:induction false} EndsLead(cap: nat, k: nat, m: nat, j: nat)
    requires 0 < m <= cap && j <= k && k > 0
    ensures Leads(cap, k, m, Ends(cap - m, k, m, j), Meter(cap, cap - m + j * m, seq(k - j, _ => m)))
  {
    hide Leads, MeterStep;
    if j == 0 {
      BeginsLead(cap, k, m, k);
    } else {
      EndsLead(cap, k, m, j - 1);
      var charged := cap - m + (j - 1) * m;
      EndStep(cap, m, charged, k - j);
      assert cap - m + j * m == charged + m by { assert j * m == (j - 1) * m + m; }
      LeadsOn(cap, k, m, Ends(cap - m, k, m, j - 1), Meter(cap, charged, seq(k - j + 1, _ => m)), End(0, m, false));
    }
  }

  /** For every cap of at least one read, some run with at most k readers of at most m bytes reaches the bound, first with
      all k in flight and then in the charged bytes themselves. */
  lemma CapBoundTight(cap: nat, k: nat, m: nat)
    requires 0 < m <= cap && k > 0
    ensures AtMost(k, m, Meter(cap, 0, []), Ends(cap - m, k, m, k))
    ensures var s := MeterRun(Meter(cap, 0, []), Begins(cap - m, k, m));
            |s.inflight| == k && s.lifetime + k * m == cap + (k - 1) * m
    ensures MeterRun(Meter(cap, 0, []), Ends(cap - m, k, m, k)).lifetime == cap + (k - 1) * m
  {
    BeginsLead(cap, k, m, k);
    EndsLead(cap, k, m, k);
    assert (k - 1) * m == k * m - m;
  }
}
