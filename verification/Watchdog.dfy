/** What StalledFor says about the serve loop's history (nbdstream/server_linux.go). */
module Watchdog {
  /** A request accepted off the wire, or answered, or the clock seeded by Start, at a time in nanoseconds. Start launches
      the serve loop before it seeds the clock, so requests may come first. */
  datatype Tick = Accepted(at: int) | Answered(at: int) | Seeded(at: int)

  datatype Clock = Clock(pending: int, last: int)

  /** The counters as Start and the loop keep them. */
  function Watch(ticks: seq<Tick>): Clock {
    if ticks == [] then Clock(0, 0)
    else
      var c := Watch(ticks[..|ticks| - 1]);
      match ticks[|ticks| - 1]
      case Accepted(_) => c.(pending := c.pending + 1)
      case Answered(t) => Clock(c.pending - 1, t)
      case Seeded(t) => c.(last := t)
  }

  /** When the request that came last was accepted; 0 before any. */
  function AcceptedAt(ticks: seq<Tick>): int {
    if ticks == [] then 0
    else if ticks[|ticks| - 1].Accepted? then ticks[|ticks| - 1].at
    else AcceptedAt(ticks[..|ticks| - 1])
  }

  predicate Stamps(t: Tick) { !t.Accepted? }

  /** The serve loop is one goroutine: a request is answered before the next is accepted. Times are positive and do not
      go back. */
  ghost predicate History(ticks: seq<Tick>) {
    && (forall k :: 0 <= k < |ticks| ==> ticks[k].at > 0)
    && (forall j, k :: 0 <= j <= k < |ticks| ==> ticks[j].at <= ticks[k].at)
    && (forall k :: 0 <= k < |ticks| ==>
          && (ticks[k].Accepted? ==> Watch(ticks[..k]).pending == 0)
          && (ticks[k].Answered? ==> Watch(ticks[..k]).pending == 1))
  }

  predicate StalledFor(closed: bool, c: Clock, now: int, d: nat) {
    !closed && c.pending > 0 && c.last != 0 && now - c.last > d
  }

  lemma HistoryPrefix(ticks: seq<Tick>, n: nat)
    requires History(ticks) && n <= |ticks|
    ensures History(ticks[..n])
  {
    forall k | 0 <= k < n
      ensures ticks[..n][k].Accepted? ==> Watch(ticks[..n][..k]).pending == 0
      ensures ticks[..n][k].Answered? ==> Watch(ticks[..n][..k]).pending == 1
    {
      assert ticks[..n][..k] == ticks[..k];
    }
  }

  lemma HistoryLast(ticks: seq<Tick>)
    requires History(ticks) && ticks != []
    ensures var n := |ticks| - 1;
            && ticks[n].at > 0 && (forall k :: 0 <= k < n ==> 0 < ticks[..n][k].at <= ticks[n].at)
            && (ticks[n].Accepted? ==> Watch(ticks[..n]).pending == 0)
            && (ticks[n].Answered? ==> Watch(ticks[..n]).pending == 1)
  {
    hide Watch;
  }

  /** t is the latest stamp; 0 when there is none. */
  ghost predicate Latest(ticks: seq<Tick>, t: int) {
    && (t == 0 <==> forall k :: 0 <= k < |ticks| ==> !Stamps(ticks[k]))
    && (t != 0 ==> exists k :: 0 <= k < |ticks| && Stamps(ticks[k]) && ticks[k].at == t)
    && (forall k :: 0 <= k < |ticks| && Stamps(ticks[k]) ==> ticks[k].at <= t)
  }

  lemma NoneLatest()
    ensures Latest([], 0)
  {
  }

  lemma LatestGrows(init: seq<Tick>, t: int, tick: Tick)
    requires Latest(init, t) && tick.at > 0 && forall k :: 0 <= k < |init| ==> 0 < init[k].at <= tick.at
    ensures Latest(init + [tick], if Stamps(tick) then tick.at else t)
  {
    var ticks := init + [tick];
    if Stamps(tick) {
      assert ticks[|init|] == tick;
    } else if t != 0 {
      var k :| 0 <= k < |init| && Stamps(init[k]) && init[k].at == t;
      assert ticks[k] == init[k];
    }
  }

  /** A request was accepted and not yet answered. */
  ghost predicate Open(ticks: seq<Tick>) {
    exists k :: 0 <= k < |ticks| && ticks[k].Accepted? && forall j :: k < j < |ticks| ==> !ticks[j].Answered?
  }

  lemma OpenBefore(init: seq<Tick>, tick: Tick)
    requires Open(init + [tick]) && !tick.Accepted?
    ensures Open(init) && !tick.Answered?
  {
    var ticks := init + [tick];
    var k :| 0 <= k < |ticks| && ticks[k].Accepted? && forall j :: k < j < |ticks| ==> !ticks[j].Answered?;
    assert k < |init| && init[k] == ticks[k] && ticks[|init|] == tick;
    forall j | k < j < |init| ensures !init[j].Answered? {
      assert ticks[j] == init[j];
    }
  }

  lemma OpenGrows(init: seq<Tick>, tick: Tick)
    ensures Open(init + [tick]) <==> tick.Accepted? || (Open(init) && !tick.Answered?)
  {
    var ticks := init + [tick];
    if tick.Accepted? {
      assert ticks[|init|].Accepted?;
    } else if Open(init) && !tick.Answered? {
      var k :| 0 <= k < |init| && init[k].Accepted? && forall j :: k < j < |init| ==> !init[j].Answered?;
      assert ticks[k].Accepted?;
    }
    if Open(ticks) && !tick.Accepted? {
      OpenBefore(init, tick);
    }
  }

  lemma NoneOpen()
    ensures !Open([])
  {
  }

  lemma OneLatest(ticks: seq<Tick>, s: int, t: int)
    requires Latest(ticks, s) && Latest(ticks, t)
    ensures s == t
  {
  }

  /** The clock is the latest stamp, and pending says whether a request is open; at most one is. */
  lemma {:induction false} WatchIs(ticks: seq<Tick>)
    requires History(ticks)
    ensures var c := Watch(ticks);
            c.pending == (if Open(ticks) then 1 else 0) && (Open(ticks) ==> AcceptedAt(ticks) > 0) && Latest(ticks, c.last)
  {
    hide Latest, History, Open;
    if ticks != [] {
      var n := |ticks| - 1;
      HistoryPrefix(ticks, n);
      HistoryLast(ticks);
      WatchIs(ticks[..n]);
      LatestGrows(ticks[..n], Watch(ticks[..n]).last, ticks[n]);
      OpenGrows(ticks[..n], ticks[n]);
      assert ticks == ticks[..n] + [ticks[n]];
    } else {
      NoneLatest();
      assert !Open(ticks) by { NoneOpen(); }
    }
  }

  /** Stalled: a request is unanswered, the clock was stamped at all, and no answer and no seed came within d. */
  lemma StalledMeans(ticks: seq<Tick>, now: int, d: nat)
    requires History(ticks)
    ensures StalledFor(false, Watch(ticks), now, d) <==>
      && Open(ticks)
      && (exists k :: 0 <= k < |ticks| && Stamps(ticks[k]))
      && forall k :: 0 <= k < |ticks| && Stamps(ticks[k]) ==> now - ticks[k].at > d
  {
    WatchIs(ticks);
  }

  /** It is not "a request has waited longer than d". It is reported early while last + d < now <= accepted + d, so at
      once if it follows an idle spell of more than d, and late while accepted + d < now <= last + d, or as long as the
      clock is not seeded. */
  lemma FalseAlarmWindow(ticks: seq<Tick>, last: int, now: int, d: nat)
    requires History(ticks) && Open(ticks) && Latest(ticks, last)
    ensures var stalled, older := StalledFor(false, Watch(ticks), now, d), now - AcceptedAt(ticks) > d;
            && (stalled && !older <==> last != 0 && last + d < now <= AcceptedAt(ticks) + d)
            && (older && !stalled <==> AcceptedAt(ticks) + d < now && (last == 0 || now <= last + d))
  {
    hide Open, Latest;
    WatchIs(ticks);
    OneLatest(ticks, last, Watch(ticks).last);
  }

  /** Late reports are of requests that overtook the seed only: if the clock was seeded before the open request was
      accepted, every wait longer than d is reported. */
  lemma {:induction false} LateOnlyBeforeSeed(ticks: seq<Tick>, k: nat, now: int, d: nat)
    requires History(ticks) && Open(ticks)
    requires k < |ticks| && ticks[k].Seeded? && ticks[k].at <= AcceptedAt(ticks)
    requires forall j :: k < j < |ticks| ==> !ticks[j].Seeded?
    ensures now - AcceptedAt(ticks) > d ==> StalledFor(false, Watch(ticks), now, d)
  {
    WatchIs(ticks);
    LastBeforeOpen(ticks, k);
  }

  lemma {:induction false} LastBeforeOpen(ticks: seq<Tick>, k: nat)
    requires History(ticks) && Open(ticks)
    requires k < |ticks| && ticks[k].Seeded? && ticks[k].at <= AcceptedAt(ticks)
    requires forall j :: k < j < |ticks| ==> !ticks[j].Seeded?
    ensures 0 < Watch(ticks).last <= AcceptedAt(ticks)
  {
    var n := |ticks| - 1;
    var init := ticks[..n];
    HistoryPrefix(ticks, n);
    WatchIs(init);
    WatchIs(ticks);
    if k < n && ticks[n].Accepted? {
      if Watch(init).last != 0 {
        var j :| 0 <= j < n && Stamps(init[j]) && init[j].at == Watch(init).last;
        assert ticks[j].at <= ticks[n].at;
      }
    }
  }

  /** A request accepted when the device had been idle for more than d since it went live. */
  lemma FreshRequestReported(live: int, at: int, d: nat)
    requires live > 0 && at - live > d
    ensures History([Seeded(live), Accepted(at)]) && StalledFor(false, Watch([Seeded(live), Accepted(at)]), at, d)
  {
    var ticks := [Seeded(live), Accepted(at)];
    assert ticks[..1] == [Seeded(live)] && [Seeded(live)][..0] == [] && ticks[..0] == [];
    assert Watch(ticks[..1]) == Clock(0, live);
  }

  /** A request accepted before the clock was seeded is reported only d after the seed. */
  lemma EarlyRequestReportedLate(at: int, live: int, d: nat)
    requires 0 < at < live
    ensures var ticks := [Accepted(at), Seeded(live)];
            History(ticks) && live + d - at > d && !StalledFor(false, Watch(ticks), live + d, d)
  {
    var ticks := [Accepted(at), Seeded(live)];
    assert ticks[..1] == [Accepted(at)] && [Accepted(at)][..0] == [] && ticks[..0] == [];
    assert Watch(ticks[..1]) == Clock(1, 0);
  }
}
