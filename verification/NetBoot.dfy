/** What a boot makes of whatever a crash left behind (cmd/agent/main.go, network/natid.go). */
module NetBoot {
  import opened Bytes
  import opened SlotStores
  import opened NetMachine
  import opened NetSafety
  import NetSteps
  import NetFaults

  function Sweeps(names: seq<NsName>): seq<Event> {
    if names == [] then [] else Sweeps(names[..|names| - 1]) + [SweepOne(names[|names| - 1], true)]
  }

  function WholeBoot(names: seq<NsName>): seq<Event> {
    [BootStart, ListLive, DoReconcile] + [KeepSet, ListNs] + Sweeps(names) + [SweepDone]
  }

  /** Some sandbox with a row has m on record. */
  ghost predicate OnRecord(n: Net, m: NsName) { exists id :: id in n.live && id in n.payload && n.payload[id] == m }

  /** The agent's namespaces that no sandbox with a row has on record. */
  ghost predicate Orphan(n: Net, m: NsName) { m in n.kernel && IsNs(m) && !OnRecord(n, m) }

  lemma Listing(u: set<Id>, n: Net)
    requires n.phase.Down?
    ensures var s := AnyStep(u, AnyStep(u, AnyStep(u, n, BootStart), ListLive), DoReconcile);
            s == n.(rows := Reconcile(n.rows, n.live), retired := n.retired + (n.payload.Keys - n.live), phase := Reconciled(n.live))
  {
    hide ShortHex, NoDashes, Lowest, ClaimIdx, Release, Reconcile;
    var n1 := AnyStep(u, AnyStep(u, n, BootStart), ListLive);
    assert n1 == n.(phase := Listed(n.live));
  }

  lemma Keeping(u: set<Id>, n: Net)
    requires n.phase.Reconciled? && n.phase.ids == n.live
    ensures var s := AnyStep(u, AnyStep(u, n, KeepSet), ListNs);
            && s == n.(phase := s.phase) && s.phase.Sweeping? && s.phase.clean
            && forall m :: m in s.phase.todo <==> Orphan(n, m)
  {
    hide ShortHex, NoDashes, Lowest, ClaimIdx, Release, Reconcile;
  }

  lemma {:induction false} Sweeping(u: set<Id>, n: Net, names: seq<NsName>)
    requires n.phase.Sweeping? && n.phase.clean && forall k :: 0 <= k < |names| ==> names[k] in n.phase.todo
    ensures var s := AnyExec(u, n, Sweeps(names));
            && s.phase.Sweeping? && s == n.(kernel := s.kernel, phase := n.phase.(todo := s.phase.todo))
            && (forall m :: m in s.kernel <==> m in n.kernel && m !in names)
            && (forall m :: m in s.kernel ==> s.kernel[m] == n.kernel[m])
            && (forall m :: m in s.phase.todo <==> m in n.phase.todo && m !in names)
  {
    if names != [] {
      var k := |names| - 1;
      hide AnyStep;
      Sweeping(u, n, names[..k]);
      OneMore(u, n, Sweeps(names[..k]), SweepOne(names[k], true));
      SweepStep(u, AnyExec(u, n, Sweeps(names[..k])), names[k]);
      assert names == names[..k] + [names[k]];
    }
  }

  /** A name that was listed twice is swept once. */
  lemma SweepStep(u: set<Id>, n: Net, m: NsName)
    requires n.phase.Sweeping? && n.phase.clean && (m !in n.phase.todo ==> m !in n.kernel)
    ensures AnyStep(u, n, SweepOne(m, true)) == n.(kernel := n.kernel - {m}, phase := n.phase.(todo := n.phase.todo - {m}))
  {
    hide ShortHex, NoDashes, Lowest, ClaimIdx, Release, Reconcile;
    if m !in n.phase.todo {
      assert n.kernel - {m} == n.kernel && n.phase.todo - {m} == n.phase.todo;
    }
  }

  lemma Finishing(u: set<Id>, n: Net)
    requires n.phase.Sweeping? && n.phase.todo == {}
    ensures AnyStep(u, n, SweepDone) == n.(phase := Running(n.phase.clean))
  {
    hide ShortHex, NoDashes, Lowest, ClaimIdx, Release, Reconcile;
  }

  /** A boot whose calls work always gets through, whatever a crash left: afterwards the ledger holds exactly the slots of
      the sandboxes that have a row, of the agent's namespaces exactly those are left that such a sandbox has on record, no
      other namespace was touched, and the pool is in order. */
  lemma BootHeals(u: set<Id>, n: Net, names: seq<NsName>)
    requires DistinctShorts(u) && Inv(u, n) && n.phase.Down?
    requires forall m :: m in names <==> Orphan(n, m)
    ensures var s := AnyExec(u, n, WholeBoot(names));
            && Inv(u, s) && s.phase == Running(true) && s.procs == map[] && s.pool == map[]
            && s.live == n.live && s.payload == n.payload && |s.rows| == |n.rows|
            && (forall i :: 0 <= i < |s.rows| ==>
                  s.rows[i] == if n.rows[i].Some? && n.rows[i].value.Sandbox? && n.rows[i].value.id in n.live then n.rows[i] else None)
            && (forall m :: m in s.kernel <==> m in n.kernel && (IsNs(m) ==> OnRecord(n, m)))
            && (forall m :: m in s.kernel ==> s.kernel[m] == n.kernel[m])
  {
    hide ShortHex, NoDashes, AnyExec, AnyStep, Inv, DistinctShorts, Reconcile, Sweeps, Orphan, OnRecord;
    assert n.procs == map[] && n.pool == map[] by { DownIsIdle(u, n); }
    ThreeMore(u, n, BootStart, ListLive, DoReconcile);
    Listing(u, n);
    var head := [BootStart, ListLive, DoReconcile];
    var n1 := AnyExec(u, n, head);
    ExecSplit(u, n, head, [KeepSet, ListNs]);
    OneMore(u, n1, [KeepSet], ListNs);
    OneStep(u, n1, KeepSet);
    assert [KeepSet] + [ListNs] == [KeepSet, ListNs];
    Keeping(u, n1);
    var n2 := AnyExec(u, n1, [KeepSet, ListNs]);
    SameOrphans(n, n1);
    ExecSplit(u, n, head + [KeepSet, ListNs], Sweeps(names));
    Sweeping(u, n2, names);
    var n3 := AnyExec(u, n2, Sweeps(names));
    assert n3.phase.todo == {};
    OneMore(u, n, head + [KeepSet, ListNs] + Sweeps(names), SweepDone);
    Finishing(u, n3);
    WholeBootIsBoots(names);
    BootIsCareful(u, n, WholeBoot(names));
    assert forall m :: m in n3.kernel <==> m in n.kernel && (IsNs(m) ==> OnRecord(n, m)) by { OrphanOrNot(n, names, n3.kernel); }
  }

  lemma OrphanOrNot(n: Net, names: seq<NsName>, kernel: map<NsName, nat>)
    requires forall m :: m in names <==> Orphan(n, m)
    requires forall m :: m in kernel <==> m in n.kernel && m !in names
    ensures forall m :: m in kernel <==> m in n.kernel && (IsNs(m) ==> OnRecord(n, m))
  {
  }

  lemma SameOrphans(n: Net, n1: Net)
    requires n1.live == n.live && n1.payload == n.payload && n1.kernel == n.kernel
    ensures forall m :: Orphan(n1, m) <==> Orphan(n, m)
  {
  }

  lemma DownIsIdle(u: set<Id>, n: Net)
    requires Inv(u, n) && n.phase.Down?
    ensures n.procs == map[] && n.pool == map[]
  {
    hide ShortHex;
  }

  lemma {:induction false} SweepsAreBoots(names: seq<NsName>)
    ensures forall k :: 0 <= k < |Sweeps(names)| ==> NetSteps.Boots(Sweeps(names)[k]) && !Sweeps(names)[k].HostReboot?
  {
    if names != [] {
      SweepsAreBoots(names[..|names| - 1]);
    }
  }

  lemma WholeBootIsBoots(names: seq<NsName>)
    ensures forall k :: 0 <= k < |WholeBoot(names)| ==> NetSteps.Boots(WholeBoot(names)[k]) && !WholeBoot(names)[k].HostReboot?
  {
    hide Sweeps;
    SweepsAreBoots(names);
  }

  /** Boot steps keep the invariant, so any run of them does. */
  lemma {:induction false} BootIsCareful(u: set<Id>, n: Net, es: seq<Event>)
    requires DistinctShorts(u) && Inv(u, n) && forall k :: 0 <= k < |es| ==> NetSteps.Boots(es[k]) && !es[k].HostReboot?
    ensures Inv(u, AnyExec(u, n, es))
  {
    hide Inv, DistinctShorts, Apply, Possible, CallersCareful, HandsOverClean;
    if es != [] {
      BootIsCareful(u, n, es[..|es| - 1]);
      var p, e := AnyExec(u, n, es[..|es| - 1]), es[|es| - 1];
      if Possible(u, p, e) {
        BootStepIsCareful(p, e);
        NetFaults.HandOverKept(u, p, e);
      }
    }
  }

  lemma BootStepIsCareful(n: Net, e: Event)
    requires NetSteps.Boots(e) && !e.HostReboot?
    ensures CallersCareful(n, e) && HandsOverClean(n, e)
  {
  }
}
