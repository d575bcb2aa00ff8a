/** govSource as running code: readers interleave between the cap check and the charge. */
module GovSources {
  import opened Governor

  /** now() never runs backwards. */
  class Clock {
    var now: real

    constructor (t: real)
      ensures now == t
    {
      now := t;
    }

    method Now() returns (t: real)
      modifies this
      ensures t == now && now >= old(now)
    {
      var d: real := *;
      if d > 0.0 { now := now + d; }
      t := now;
    }
  }

  datatype Verdict = Wait(seconds: real) | CapExceeded

  class GovSource {
    const rateBps: real
    const burst: real
    const hardCap: nat
    const softCap: nat
    var tokens: real
    var last: real
    var lifetime: nat
    var throttled: bool
    var capHits: nat
    ghost const t0: real
    ghost var requests: seq<(real, real)>  // reservations made so far, in lock order
    ghost var pending: seq<nat>            // sizes admitted and not yet charged

    ghost function Bucket(): Bucket
      reads this
    {
      Governor.Bucket(rateBps, burst, tokens, last)
    }

    ghost function Meter(): Meter
      reads this
    {
      Governor.Meter(hardCap, lifetime, pending)
    }

    /** The bucket is what the reservations since t0 leave. */
    ghost predicate Valid()
      reads this
    {
      && burst >= 0.0 && tokens <= burst
      && (rateBps > 0.0 ==>
        && Monotone(t0, requests) && t0 <= last && (requests != [] ==> requests[|requests| - 1].0 == last)
        && Bucket() == After(NewBucket(rateBps, burst, t0), requests))
    }

    /** The reservations so far, each with the time its wait is over. */
    ghost function Admissions(): seq<Admission>
      reads this
    {
      if rateBps > 0.0 then Admit(NewBucket(rateBps, burst, t0), requests) else []
    }

    constructor (rateBps: real, burst: real, hardCap: nat, softCap: nat, now: real)
      requires burst >= 0.0
      ensures Valid() && requests == [] && pending == [] && t0 == now
      ensures Meter() == Governor.Meter(hardCap, 0, [])
    {
      this.rateBps, this.burst, this.hardCap, this.softCap := rateBps, burst, hardCap, softCap;
      tokens, last, lifetime, throttled, capHits := burst, now, 0, false, 0;
      t0, requests, pending := now, [], [];
    }

    /** reserveLocked. */
    method ReserveLocked(n: real, clock: Clock) returns (wait: real)
      requires Valid() && n >= 0.0 && clock.now >= last
      modifies this, clock
      ensures Valid() && clock.now >= last && clock.now >= old(clock.now)
      ensures lifetime == old(lifetime) && pending == old(pending) && capHits == old(capHits) && throttled == old(throttled)
      ensures rateBps <= 0.0 ==> wait == 0.0 && Bucket() == old(Bucket()) && requests == old(requests)
      ensures rateBps > 0.0 ==>
        && requests == old(requests) + [(last, n)] && last == clock.now
        && (Bucket(), wait) == Reserve(old(Bucket()), last, n)
        && Admissions() == old(Admissions()) + [Admission(n, last, last + wait)]
    {
      hide After, Monotone, Reserve, Admit;
      if rateBps <= 0.0 { return 0.0; }
      var now := clock.Now();
      ghost var before := Bucket();
      Refill(now);
      tokens := tokens - n;
      wait := if tokens >= 0.0 then 0.0 else -tokens / rateBps;
      ReserveIs(before, now, n, Bucket(), wait);
      AfterAppend(NewBucket(rateBps, burst, t0), requests, now, n);
      MonotoneAppend(t0, requests, now, n);
      AdmitAppend(NewBucket(rateBps, burst, t0), requests, now, n);
      requests := requests + [(now, n)];
    }

    method Refill(now: real)
      requires rateBps > 0.0 && tokens <= burst
      modifies this`tokens, this`last
      ensures tokens <= burst && last == if now > old(last) then now else old(last)
      ensures tokens == if now > old(last) then MinR(old(tokens) + (now - old(last)) * rateBps, burst) else old(tokens)
    {
      var elapsed := now - last;
      if elapsed > 0.0 {
        tokens := tokens + elapsed * rateBps;
        if tokens > burst { tokens := burst; }
        last := now;
      }
    }

    /** The first critical section of ReadAt: the cap check, the soft-cap latch and the reservation. The wait it returns is
        the one after which the reservation counts as released. */
    method Begin(n: nat, clock: Clock) returns (v: Verdict)
      requires Valid() && n > 0 && clock.now >= last
      modifies this, clock
      ensures Valid() && clock.now >= last && clock.now >= old(clock.now)
      ensures Meter() == MeterStep(old(Meter()), MeterEvent.Begin(n))
      ensures v.CapExceeded? <==> !UnderCap(old(Meter()), n)
      ensures v.CapExceeded? ==> capHits == old(capHits) + 1 && requests == old(requests) && Bucket() == old(Bucket())
      ensures v.Wait? && rateBps > 0.0 ==> requests == old(requests) + [(last, n as real)]
      ensures v.Wait? && rateBps > 0.0 ==> Admissions() == old(Admissions()) + [Admission(n as real, last, last + v.seconds)]
      ensures v.Wait? && rateBps <= 0.0 ==> v.seconds == 0.0 && Bucket() == old(Bucket())
      ensures v.Wait? ==> capHits == old(capHits)
      ensures throttled <==> old(throttled) || (v.Wait? && 0 < softCap < lifetime + n)
    {
      if hardCap > 0 && lifetime + n > hardCap {
        capHits := capHits + 1;
        return CapExceeded;
      }
      if softCap > 0 && !throttled && lifetime + n > softCap {
        throttled := true;
      }
      var wait := ReserveLocked(n as real, clock);
      pending := pending + [n];
      return Wait(wait);
    }

    /** The end of ReadAt for the i-th pending reader: the charge, made only for a fetch that succeeded. */
    method End(ghost i: nat, read: nat, failed: bool)
      requires Valid() && i < |pending| && read <= pending[i]
      modifies this
      ensures Valid() && Meter() == MeterStep(old(Meter()), MeterEvent.End(i, read, failed))
      ensures requests == old(requests) && Bucket() == old(Bucket()) && capHits == old(capHits) && throttled == old(throttled)
    {
      if !failed { lifetime := lifetime + read; }
      pending := Remove(pending, i);
    }

    /** The rate bound, for the reservations this object has made. */
    lemma ReleasedSoFar(T: real)
      requires Valid() && rateBps > 0.0 && T >= t0
      ensures Released(Admit(NewBucket(rateBps, burst, t0), requests), T) <= burst + rateBps * (T - t0)
    {
      RateBound(rateBps, burst, t0, requests, T);
    }
  }

  /** A run of readers against one governor, with charges in between: `told` is what each admitted reader was told, when
      it asked and until when it sleeps. However many asked for how much, the bytes of the readers whose sleep is over never
      exceed what the rate and one burst allow. */
  method ServeReads(g: GovSource, clock: Clock, sizes: seq<nat>) returns (told: seq<Admission>)
    requires g.Valid() && g.rateBps > 0.0 && g.requests == [] && g.pending == [] && clock.now >= g.last
    requires forall k :: 0 <= k < |sizes| ==> sizes[k] > 0
    modifies g, clock
    ensures forall T :: T >= g.t0 ==> Released(told, T) <= g.burst + g.rateBps * (T - g.t0)
    ensures g.hardCap == 0 ==> |told| == |sizes| && forall k :: 0 <= k < |sizes| ==> told[k].bytes == sizes[k] as real
  {
    hide Admit, Monotone, After, Remove;
    told := [];
    var open: seq<nat> := [];
    NoAdmissions(NewBucket(g.rateBps, g.burst, g.t0));
    for k := 0 to |sizes|
      invariant g.Valid() && clock.now >= g.last && told == g.Admissions() && open == g.pending
      invariant g.hardCap == 0 ==> |told| == k && forall j :: 0 <= j < k ==> told[j].bytes == sizes[j] as real
    {
      var i: nat, read: nat, failed: bool := *, *, *;
      if i < |open| && read <= open[i] {
        g.End(i, read, failed);
        open := Remove(open, i);
      }
      var v := g.Begin(sizes[k], clock);
      if v.Wait? {
        open := open + [sizes[k]];
        told := told + [Admission(sizes[k] as real, g.last, g.last + v.seconds)];
      }
    }
    forall T | T >= g.t0 ensures Released(told, T) <= g.burst + g.rateBps * (T - g.t0) {
      g.ReleasedSoFar(T);
    }
  }

  lemma NoAdmissions(b: Bucket)
    requires b.rate > 0.0
    ensures Admit(b, []) == []
  {
  }

  lemma ReserveIs(b: Bucket, now: real, n: real, b': Bucket, wait: real)
    requires b.rate > 0.0 && b'.rate == b.rate && b'.burst == b.burst
    requires b'.last == if now > b.last then now else b.last
    requires b'.tokens == (if now > b.last then MinR(b.tokens + (now - b.last) * b.rate, b.burst) else b.tokens) - n
    requires wait == if b'.tokens >= 0.0 then 0.0 else -b'.tokens / b'.rate
    ensures Reserve(b, now, n) == (b', wait)
  {
  }

  /** The bucket after a list of reservations. */
  function After(b: Bucket, reqs: seq<(real, real)>): Bucket
    requires b.rate > 0.0
    decreases |reqs|
  {
    if reqs == [] then b else After(Reserve(b, reqs[0].0, reqs[0].1).0, reqs[1..])
  }

  lemma {:induction false} AfterAppend(b: Bucket, reqs: seq<(real, real)>, at: real, n: real)
    requires b.rate > 0.0
    ensures After(b, reqs).rate > 0.0
    ensures After(b, reqs + [(at, n)]) == Reserve(After(b, reqs), at, n).0
    decreases |reqs|
  {
    var r := reqs + [(at, n)];
    if reqs != [] {
      AfterAppend(Reserve(b, reqs[0].0, reqs[0].1).0, reqs[1..], at, n);
      assert r[1..] == reqs[1..] + [(at, n)];
    } else {
      assert r[1..] == [];
    }
  }

  lemma {:induction false} AdmitAppend(b: Bucket, reqs: seq<(real, real)>, at: real, n: real)
    requires b.rate > 0.0
    ensures After(b, reqs).rate > 0.0
    ensures Admit(b, reqs + [(at, n)]) == Admit(b, reqs) + [Admission(n, at, at + Reserve(After(b, reqs), at, n).1)]
    decreases |reqs|
  {
    var r := reqs + [(at, n)];
    if reqs != [] {
      var b' := Reserve(b, reqs[0].0, reqs[0].1).0;
      AdmitAppend(b', reqs[1..], at, n);
      assert r[1..] == reqs[1..] + [(at, n)] && r[0] == reqs[0];
    } else {
      assert r[1..] == [] && After(b, reqs) == b && Admit(b, reqs) == [];
      NoAdmissions(Reserve(b, at, n).0);
    }
  }

  lemma {:induction false} MonotoneAppend(last: real, reqs: seq<(real, real)>, at: real, n: real)
    requires Monotone(last, reqs) && n >= 0.0 && at >= (if reqs == [] then last else reqs[|reqs| - 1].0)
    ensures Monotone(last, reqs + [(at, n)])
    decreases |reqs|
  {
    var r := reqs + [(at, n)];
    if reqs != [] {
      MonotoneAppend(reqs[0].0, reqs[1..], at, n);
      assert r[1..] == reqs[1..] + [(at, n)];
    } else {
      assert r[1..] == [];
    }
  }
}
