/** Every step of the network machine keeps its invariant: for each conjunct (ledger, payload rows, running operations,
    boot phase) one lemma per group of events, since the groups touch different parts of the state, and one that puts the
    groups together. The bodies hide the definitions a group does not need. */
module NetSteps {
  import opened Bytes
  import opened SlotStores
  import opened NetMachine

  predicate Boots(e: Event) {
    e.Crash? || e.HostReboot? || e.BootStart? || e.ListLive? || e.DoReconcile? || e.ReconcileFail? || e.KeepSet? || e.ListNs?
    || e.SweepOne? || e.SweepDone? || e.NoSweep? || e.InsertRow? || e.DeleteRow?
  }

  predicate Builds(e: Event) { e.BuildClear? || e.BuildAdd? || e.BuildFail? || e.Park? }

  predicate Adopts(e: Event) { e.Pop? || e.Adopt? || e.SaveFast? }

  predicate Slows(e: Event) { e.SlowClear? || e.SlowAdd? || e.SlowSave? }

  predicate Undoes(e: Event) { e.SlowFail? || e.SlowAbort? }

  predicate Frees(e: Event) { e.RelDelete? || e.RelFree? }

  lemma LedgerKeptReset(u: set<Id>, n: Net, e: Event)
    requires DistinctShorts(u) && Inv(u, n) && Enabled(u, n, e) && (e.Crash? || e.HostReboot?)
    ensures SingleOwner(Apply(u, n, e).rows) && KernelOk(Apply(u, n, e)) && PoolOk(Apply(u, n, e))
  {
    hide ShortHex, NoDashes, Lowest, Release, Reconcile, PayloadOk, Clean, KeepOk;
  }

  lemma LedgerKeptStage(u: set<Id>, n: Net, e: Event)
    requires DistinctShorts(u) && Inv(u, n) && Enabled(u, n, e) && (Boots(e) && !e.Crash? && !e.HostReboot?)
    ensures SingleOwner(Apply(u, n, e).rows) && KernelOk(Apply(u, n, e)) && PoolOk(Apply(u, n, e))
  {
    hide ShortHex, NoDashes, Lowest, Release, Reconcile, Careful, PayloadOk, Clean, KeepOk;
  }

  lemma LedgerKeptPool(u: set<Id>, n: Net, e: Event)
    requires DistinctShorts(u) && Inv(u, n) && Enabled(u, n, e) && (e.PrebuildClaim? || e.BuildAbort?)
    ensures SingleOwner(Apply(u, n, e).rows) && KernelOk(Apply(u, n, e)) && PoolOk(Apply(u, n, e))
  {
    hide ShortHex, NoDashes, Lowest, Release, Reconcile, Careful, PayloadOk, BootOk;
  }

  lemma LedgerKeptClear(u: set<Id>, n: Net, e: Event)
    requires DistinctShorts(u) && Inv(u, n) && Enabled(u, n, e) && (e.BuildClear? || e.BuildFail?)
    ensures SingleOwner(Apply(u, n, e).rows) && KernelOk(Apply(u, n, e)) && PoolOk(Apply(u, n, e))
  {
    hide ShortHex, NoDashes, Lowest, Release, Reconcile, Careful, SingleOwner, PayloadOk, BootOk;
  }

  lemma LedgerKeptAdd(u: set<Id>, n: Net, e: Event)
    requires DistinctShorts(u) && Inv(u, n) && Enabled(u, n, e) && (e.BuildAdd? || e.Park?)
    ensures SingleOwner(Apply(u, n, e).rows) && KernelOk(Apply(u, n, e)) && PoolOk(Apply(u, n, e))
  {
    hide ShortHex, NoDashes, Lowest, Release, Reconcile, Careful, SingleOwner, PayloadOk, BootOk;
  }

  lemma LedgerKeptPopSave(u: set<Id>, n: Net, e: Event)
    requires DistinctShorts(u) && Inv(u, n) && Enabled(u, n, e) && (e.Pop? || e.SaveFast?)
    ensures SingleOwner(Apply(u, n, e).rows) && KernelOk(Apply(u, n, e)) && PoolOk(Apply(u, n, e))
  {
    hide ShortHex, NoDashes, Lowest, Release, Reconcile, PayloadOk, BootOk;
  }

  lemma LedgerKeptTake(u: set<Id>, n: Net, e: Event)
    requires DistinctShorts(u) && Inv(u, n) && Enabled(u, n, e) && e.Adopt?
    ensures SingleOwner(Apply(u, n, e).rows) && KernelOk(Apply(u, n, e)) && PoolOk(Apply(u, n, e))
  {
    hide ShortHex, NoDashes, Lowest, Release, Reconcile, Careful, PayloadOk, BootOk;
  }

  lemma LedgerKeptClaim(u: set<Id>, n: Net, e: Event)
    requires DistinctShorts(u) && Inv(u, n) && Enabled(u, n, e) && e.SlowClaim?
    ensures SingleOwner(Apply(u, n, e).rows) && KernelOk(Apply(u, n, e)) && PoolOk(Apply(u, n, e))
  {
    hide ShortHex, NoDashes, Lowest, Release, Reconcile, PayloadOk, BootOk;
  }

  lemma LedgerKeptSlowClear(u: set<Id>, n: Net, e: Event)
    requires DistinctShorts(u) && Inv(u, n) && Enabled(u, n, e) && e.SlowClear?
    ensures SingleOwner(Apply(u, n, e).rows) && KernelOk(Apply(u, n, e)) && PoolOk(Apply(u, n, e))
  {
    hide ShortHex, NoDashes, Lowest, Release, Reconcile, Careful, SingleOwner, PayloadOk, BootOk;
  }

  lemma LedgerKeptSlowAdd(u: set<Id>, n: Net, e: Event)
    requires DistinctShorts(u) && Inv(u, n) && Enabled(u, n, e) && (e.SlowAdd? || e.SlowSave?)
    ensures SingleOwner(Apply(u, n, e).rows) && KernelOk(Apply(u, n, e)) && PoolOk(Apply(u, n, e))
  {
    hide ShortHex, NoDashes, Lowest, Release, Reconcile, Careful, SingleOwner, PayloadOk, BootOk;
  }

  lemma LedgerKeptFail(u: set<Id>, n: Net, e: Event)
    requires DistinctShorts(u) && Inv(u, n) && Enabled(u, n, e) && e.SlowFail?
    ensures SingleOwner(Apply(u, n, e).rows) && KernelOk(Apply(u, n, e)) && PoolOk(Apply(u, n, e))
  {
    hide ShortHex, NoDashes, Lowest, Release, Reconcile, Careful, SingleOwner, PayloadOk, BootOk;
  }

  lemma LedgerKeptAbort(u: set<Id>, n: Net, e: Event)
    requires DistinctShorts(u) && Inv(u, n) && Enabled(u, n, e) && e.SlowAbort?
    ensures SingleOwner(Apply(u, n, e).rows) && KernelOk(Apply(u, n, e)) && PoolOk(Apply(u, n, e))
  {
    hide ShortHex, NoDashes, Lowest, Release, Reconcile, Careful, PayloadOk, BootOk;
  }

  lemma LedgerKeptBegin(u: set<Id>, n: Net, e: Event)
    requires DistinctShorts(u) && Inv(u, n) && Enabled(u, n, e) && e.RelBegin?
    ensures SingleOwner(Apply(u, n, e).rows) && KernelOk(Apply(u, n, e)) && PoolOk(Apply(u, n, e))
  {
    hide ShortHex, NoDashes, Lowest, Release, Reconcile, Careful, SingleOwner, BootOk;
  }

  lemma LedgerKeptKill(u: set<Id>, n: Net, e: Event)
    requires DistinctShorts(u) && Inv(u, n) && Enabled(u, n, e) && e.RelDestroy?
    ensures SingleOwner(Apply(u, n, e).rows) && KernelOk(Apply(u, n, e)) && PoolOk(Apply(u, n, e))
  {
    hide ShortHex, NoDashes, Lowest, Release, Reconcile, Careful, SingleOwner, BootOk;
  }

  lemma LedgerKeptDelete(u: set<Id>, n: Net, e: Event)
    requires DistinctShorts(u) && Inv(u, n) && Enabled(u, n, e) && e.RelDelete?
    ensures SingleOwner(Apply(u, n, e).rows) && KernelOk(Apply(u, n, e)) && PoolOk(Apply(u, n, e))
  {
    hide ShortHex, NoDashes, Lowest, Release, Reconcile, Careful, SingleOwner, PayloadOk, BootOk;
  }

  lemma LedgerKeptRelease(u: set<Id>, n: Net, e: Event)
    requires DistinctShorts(u) && Inv(u, n) && Enabled(u, n, e) && e.RelFree?
    ensures SingleOwner(Apply(u, n, e).rows) && KernelOk(Apply(u, n, e)) && PoolOk(Apply(u, n, e))
  {
    hide ShortHex, NoDashes, Lowest, Release, Reconcile, Careful, PayloadOk, BootOk;
  }

  lemma PayloadKeptBoot(u: set<Id>, n: Net, e: Event)
    requires DistinctShorts(u) && Inv(u, n) && Enabled(u, n, e) && Boots(e)
    ensures PayloadOk(u, Apply(u, n, e))
  {
    hide ShortHex, NoDashes, Lowest, Release, Reconcile, SingleOwner, Clean, KeepOk;
  }

  lemma PayloadKeptPool(u: set<Id>, n: Net, e: Event)
    requires DistinctShorts(u) && Inv(u, n) && Enabled(u, n, e) && (e.PrebuildClaim? || e.BuildAbort?)
    ensures PayloadOk(u, Apply(u, n, e))
  {
    hide ShortHex, NoDashes, Lowest, Release, Reconcile, Careful, SingleOwner, BootOk;
  }

  lemma PayloadKeptBuild(u: set<Id>, n: Net, e: Event)
    requires DistinctShorts(u) && Inv(u, n) && Enabled(u, n, e) && Builds(e)
    ensures PayloadOk(u, Apply(u, n, e))
  {
    hide ShortHex, NoDashes, Lowest, Release, Reconcile, Careful, SingleOwner, BootOk;
  }

  lemma PayloadKeptAdopt(u: set<Id>, n: Net, e: Event)
    requires DistinctShorts(u) && Inv(u, n) && Enabled(u, n, e) && Adopts(e)
    ensures PayloadOk(u, Apply(u, n, e))
  {
    hide ShortHex, NoDashes, Lowest, Release, Reconcile, SingleOwner, BootOk;
  }

  lemma PayloadKeptClaim(u: set<Id>, n: Net, e: Event)
    requires DistinctShorts(u) && Inv(u, n) && Enabled(u, n, e) && e.SlowClaim?
    ensures PayloadOk(u, Apply(u, n, e))
  {
    hide ShortHex, NoDashes, Lowest, Release, Reconcile, SingleOwner, BootOk;
  }

  lemma PayloadKeptSlow(u: set<Id>, n: Net, e: Event)
    requires DistinctShorts(u) && Inv(u, n) && Enabled(u, n, e) && Slows(e)
    ensures PayloadOk(u, Apply(u, n, e))
  {
    hide ShortHex, NoDashes, Lowest, Release, Reconcile, Careful, SingleOwner, BootOk;
  }

  lemma PayloadKeptUndo(u: set<Id>, n: Net, e: Event)
    requires DistinctShorts(u) && Inv(u, n) && Enabled(u, n, e) && Undoes(e)
    ensures PayloadOk(u, Apply(u, n, e))
  {
    hide ShortHex, NoDashes, Lowest, Release, Reconcile, Careful, SingleOwner, BootOk;
  }

  lemma PayloadKeptBegin(u: set<Id>, n: Net, e: Event)
    requires DistinctShorts(u) && Inv(u, n) && Enabled(u, n, e) && e.RelBegin?
    ensures PayloadOk(u, Apply(u, n, e))
  {
    hide ShortHex, NoDashes, Lowest, Release, Reconcile, Careful, SingleOwner, BootOk;
  }

  lemma PayloadKeptKill(u: set<Id>, n: Net, e: Event)
    requires DistinctShorts(u) && Inv(u, n) && Enabled(u, n, e) && e.RelDestroy?
    ensures PayloadOk(u, Apply(u, n, e))
  {
    hide ShortHex, NoDashes, Lowest, Release, Reconcile, Careful, SingleOwner, BootOk;
  }

  lemma PayloadKeptFree(u: set<Id>, n: Net, e: Event)
    requires DistinctShorts(u) && Inv(u, n) && Enabled(u, n, e) && Frees(e)
    ensures PayloadOk(u, Apply(u, n, e))
  {
    hide ShortHex, NoDashes, Lowest, Release, Reconcile, SingleOwner, BootOk;
  }

  lemma ProcsKeptReset(u: set<Id>, n: Net, e: Event)
    requires DistinctShorts(u) && Inv(u, n) && Enabled(u, n, e) && (e.Crash? || e.HostReboot?)
    ensures ProcsOk(u, Apply(u, n, e))
  {
    hide ShortHex, NoDashes, Lowest, Release, Reconcile, SingleOwner, KernelOk, Clean, KeepOk;
  }

  lemma ProcsKeptLook(u: set<Id>, n: Net, e: Event)
    requires DistinctShorts(u) && Inv(u, n) && Enabled(u, n, e) && (Boots(e) && !e.Crash? && !e.HostReboot? && !e.SweepOne? && !e.SweepDone?)
    ensures ProcsOk(u, Apply(u, n, e))
  {
    hide ShortHex, NoDashes, Lowest, Release, Reconcile, Careful, SingleOwner, KernelOk, Clean, KeepOk;
  }

  lemma ProcsKeptSweep(u: set<Id>, n: Net, e: Event)
    requires DistinctShorts(u) && Inv(u, n) && Enabled(u, n, e) && (e.SweepOne? || e.SweepDone?)
    ensures ProcsOk(u, Apply(u, n, e))
  {
    hide ShortHex, NoDashes, Lowest, Release, Reconcile, Careful, SingleOwner, KernelOk, Clean, KeepOk;
  }

  lemma ProcsKeptPool(u: set<Id>, n: Net, e: Event)
    requires DistinctShorts(u) && Inv(u, n) && Enabled(u, n, e) && (e.PrebuildClaim? || e.BuildAbort?)
    ensures ProcsOk(u, Apply(u, n, e))
  {
    hide ShortHex, NoDashes, Lowest, Release, Reconcile, Careful, SingleOwner, KernelOk, BootOk;
  }

  lemma ProcsKeptClear(u: set<Id>, n: Net, e: Event)
    requires DistinctShorts(u) && Inv(u, n) && Enabled(u, n, e) && (e.BuildClear? || e.BuildFail?)
    ensures ProcsOk(u, Apply(u, n, e))
  {
    hide ShortHex, NoDashes, Lowest, Release, Reconcile, Careful, SingleOwner, KernelOk, BootOk;
    assert n.rows[e.i] == Some(Prebuilt(e.i));
    hide Inv, PoolOk, PayloadOk, DistinctShorts;
  }

  lemma ProcsKeptAdd(u: set<Id>, n: Net, e: Event)
    requires DistinctShorts(u) && Inv(u, n) && Enabled(u, n, e) && (e.BuildAdd? || e.Park?)
    ensures ProcsOk(u, Apply(u, n, e))
  {
    hide ShortHex, NoDashes, Lowest, Release, Reconcile, Careful, SingleOwner, KernelOk, BootOk;
  }

  lemma ProcsKeptPopSave(u: set<Id>, n: Net, e: Event)
    requires DistinctShorts(u) && Inv(u, n) && Enabled(u, n, e) && (e.Pop? || e.SaveFast?)
    ensures ProcsOk(u, Apply(u, n, e))
  {
    hide ShortHex, NoDashes, Lowest, Release, Reconcile, SingleOwner, KernelOk, BootOk;
  }

  lemma ProcsKeptTake(u: set<Id>, n: Net, e: Event)
    requires DistinctShorts(u) && Inv(u, n) && Enabled(u, n, e) && e.Adopt?
    ensures ProcsOk(u, Apply(u, n, e))
  {
    hide ShortHex, NoDashes, Lowest, Release, Reconcile, Careful, SingleOwner, KernelOk, BootOk;
  }

  lemma ProcsKeptClaim(u: set<Id>, n: Net, e: Event)
    requires DistinctShorts(u) && Inv(u, n) && Enabled(u, n, e) && e.SlowClaim?
    ensures ProcsOk(u, Apply(u, n, e))
  {
    hide ShortHex, NoDashes, Lowest, Release, Reconcile, SingleOwner, KernelOk, BootOk;
  }

  lemma ProcsKeptSlowClear(u: set<Id>, n: Net, e: Event)
    requires DistinctShorts(u) && Inv(u, n) && Enabled(u, n, e) && e.SlowClear?
    ensures ProcsOk(u, Apply(u, n, e))
  {
    hide ShortHex, NoDashes, Lowest, Release, Reconcile, Careful, SingleOwner, KernelOk, BootOk;
  }

  lemma ProcsKeptNameAdd(u: set<Id>, n: Net, e: Event)
    requires DistinctShorts(u) && Inv(u, n) && Enabled(u, n, e) && e.SlowAdd?
    ensures ProcsOk(u, Apply(u, n, e))
  {
    hide ShortHex, NoDashes, Lowest, Release, Reconcile, Careful, SingleOwner, KernelOk, BootOk;
  }

  lemma ProcsKeptSlowSave(u: set<Id>, n: Net, e: Event)
    requires DistinctShorts(u) && Inv(u, n) && Enabled(u, n, e) && e.SlowSave?
    ensures ProcsOk(u, Apply(u, n, e))
  {
    hide ShortHex, NoDashes, Lowest, Release, Reconcile, Careful, SingleOwner, KernelOk, BootOk;
  }

  lemma ProcsKeptFail(u: set<Id>, n: Net, e: Event)
    requires DistinctShorts(u) && Inv(u, n) && Enabled(u, n, e) && e.SlowFail?
    ensures ProcsOk(u, Apply(u, n, e))
  {
    hide ShortHex, NoDashes, Lowest, Release, Reconcile, Careful, SingleOwner, KernelOk, BootOk;
  }

  lemma ProcsKeptAbort(u: set<Id>, n: Net, e: Event)
    requires DistinctShorts(u) && Inv(u, n) && Enabled(u, n, e) && e.SlowAbort?
    ensures ProcsOk(u, Apply(u, n, e))
  {
    hide ShortHex, NoDashes, Lowest, Release, Reconcile, Careful, SingleOwner, KernelOk, BootOk;
  }

  lemma ProcsKeptBegin(u: set<Id>, n: Net, e: Event)
    requires DistinctShorts(u) && Inv(u, n) && Enabled(u, n, e) && e.RelBegin?
    ensures ProcsOk(u, Apply(u, n, e))
  {
    hide ShortHex, NoDashes, Lowest, Release, Reconcile, Careful, SingleOwner, KernelOk, BootOk;
  }

  lemma ProcsKeptKill(u: set<Id>, n: Net, e: Event)
    requires DistinctShorts(u) && Inv(u, n) && Enabled(u, n, e) && e.RelDestroy?
    ensures ProcsOk(u, Apply(u, n, e))
  {
    hide ShortHex, NoDashes, Lowest, Release, Reconcile, Careful, SingleOwner, KernelOk, BootOk;
  }

  lemma ProcsKeptDelete(u: set<Id>, n: Net, e: Event)
    requires DistinctShorts(u) && Inv(u, n) && Enabled(u, n, e) && e.RelDelete?
    ensures ProcsOk(u, Apply(u, n, e))
  {
    hide ShortHex, NoDashes, Lowest, Release, Reconcile, Careful, SingleOwner, KernelOk, BootOk;
  }

  lemma ProcsKeptRelease(u: set<Id>, n: Net, e: Event)
    requires DistinctShorts(u) && Inv(u, n) && Enabled(u, n, e) && e.RelFree?
    ensures ProcsOk(u, Apply(u, n, e))
  {
    hide ShortHex, NoDashes, Lowest, Release, Reconcile, Careful, SingleOwner, KernelOk, BootOk;
  }

  lemma PhaseKeptReset(u: set<Id>, n: Net, e: Event)
    requires DistinctShorts(u) && Inv(u, n) && Enabled(u, n, e) && (e.Crash? || e.HostReboot?)
    ensures BootOk(Apply(u, n, e))
  {
    hide ShortHex, NoDashes, Lowest, Release, Reconcile, SingleOwner, PoolOk;
  }

  lemma PhaseKeptLook(u: set<Id>, n: Net, e: Event)
    requires DistinctShorts(u) && Inv(u, n) && Enabled(u, n, e) && (Boots(e) && !e.Crash? && !e.HostReboot? && !e.SweepOne? && !e.SweepDone?)
    ensures BootOk(Apply(u, n, e))
  {
    hide ShortHex, NoDashes, Lowest, Release, Reconcile, Careful, SingleOwner, PoolOk;
  }

  lemma PhaseKeptSweep(u: set<Id>, n: Net, e: Event)
    requires DistinctShorts(u) && Inv(u, n) && Enabled(u, n, e) && (e.SweepOne? || e.SweepDone?)
    ensures BootOk(Apply(u, n, e))
  {
    hide ShortHex, NoDashes, Lowest, Release, Reconcile, Careful, SingleOwner, PoolOk;
  }

  lemma PhaseKeptPool(u: set<Id>, n: Net, e: Event)
    requires DistinctShorts(u) && Inv(u, n) && Enabled(u, n, e) && (e.PrebuildClaim? || e.BuildAbort?)
    ensures BootOk(Apply(u, n, e))
  {
    hide ShortHex, NoDashes, Lowest, Release, Reconcile, SingleOwner, PayloadOk;
  }

  lemma PhaseKeptClear(u: set<Id>, n: Net, e: Event)
    requires DistinctShorts(u) && Inv(u, n) && Enabled(u, n, e) && (e.BuildClear? || e.BuildFail?)
    ensures BootOk(Apply(u, n, e))
  {
    hide ShortHex, NoDashes, Lowest, Release, Reconcile, Careful, SingleOwner, PayloadOk;
  }

  lemma PhaseKeptAdd(u: set<Id>, n: Net, e: Event)
    requires DistinctShorts(u) && Inv(u, n) && Enabled(u, n, e) && (e.BuildAdd? || e.Park?)
    ensures BootOk(Apply(u, n, e))
  {
    hide ShortHex, NoDashes, Lowest, Release, Reconcile, Careful, SingleOwner, PayloadOk;
  }

  lemma PhaseKeptPopSave(u: set<Id>, n: Net, e: Event)
    requires DistinctShorts(u) && Inv(u, n) && Enabled(u, n, e) && (e.Pop? || e.SaveFast?)
    ensures BootOk(Apply(u, n, e))
  {
    hide ShortHex, NoDashes, Lowest, Release, Reconcile, SingleOwner, PoolOk;
  }

  lemma PhaseKeptTake(u: set<Id>, n: Net, e: Event)
    requires DistinctShorts(u) && Inv(u, n) && Enabled(u, n, e) && e.Adopt?
    ensures BootOk(Apply(u, n, e))
  {
    hide ShortHex, NoDashes, Lowest, Release, Reconcile, Careful, SingleOwner, PoolOk;
  }

  lemma PhaseKeptClaim(u: set<Id>, n: Net, e: Event)
    requires DistinctShorts(u) && Inv(u, n) && Enabled(u, n, e) && e.SlowClaim?
    ensures BootOk(Apply(u, n, e))
  {
    hide ShortHex, NoDashes, Lowest, Release, Reconcile, SingleOwner, PoolOk;
  }

  lemma PhaseKeptSlow(u: set<Id>, n: Net, e: Event)
    requires DistinctShorts(u) && Inv(u, n) && Enabled(u, n, e) && Slows(e)
    ensures BootOk(Apply(u, n, e))
  {
    hide ShortHex, NoDashes, Lowest, Release, Reconcile, Careful, SingleOwner, PoolOk;
  }

  lemma PhaseKeptFail(u: set<Id>, n: Net, e: Event)
    requires DistinctShorts(u) && Inv(u, n) && Enabled(u, n, e) && e.SlowFail?
    ensures BootOk(Apply(u, n, e))
  {
    hide ShortHex, NoDashes, Lowest, Release, Reconcile, Careful, SingleOwner, PoolOk, KernelOk, PayloadOk;
  }

  lemma PhaseKeptAbort(u: set<Id>, n: Net, e: Event)
    requires DistinctShorts(u) && Inv(u, n) && Enabled(u, n, e) && e.SlowAbort?
    ensures BootOk(Apply(u, n, e))
  {
    hide ShortHex, NoDashes, Lowest, Release, Reconcile, SingleOwner, PoolOk, KernelOk, PayloadOk;
  }

  lemma PhaseKeptBegin(u: set<Id>, n: Net, e: Event)
    requires DistinctShorts(u) && Inv(u, n) && Enabled(u, n, e) && e.RelBegin?
    ensures BootOk(Apply(u, n, e))
  {
    hide ShortHex, NoDashes, Lowest, Release, Reconcile, Careful, SingleOwner, PoolOk, KernelOk, PayloadOk;
    var n' := Apply(u, n, e);
    assert forall x :: Current(n', x) == Current(n, x);
    hide Inv, ProcsOk, ProcOk, Mine, DistinctShorts, Current;
  }

  lemma PhaseKeptKill(u: set<Id>, n: Net, e: Event)
    requires DistinctShorts(u) && Inv(u, n) && Enabled(u, n, e) && e.RelDestroy?
    ensures BootOk(Apply(u, n, e))
  {
    hide ShortHex, NoDashes, Lowest, Release, Reconcile, Careful, SingleOwner, PoolOk, KernelOk, PayloadOk;
    assert ProcOk(u, n, e.id, n.procs[e.id]);
    var n' := Apply(u, n, e);
    assert forall x :: x != e.id ==> Current(n', x) == Current(n, x);
    assert Current(n, e.id).Some? ==> Current(n', e.id) == Current(n, e.id) || Current(n, e.id).value !in n'.kernel;
    hide Inv, ProcsOk, ProcOk, Mine, DistinctShorts, Current;
  }

  lemma PhaseKeptDelete(u: set<Id>, n: Net, e: Event)
    requires DistinctShorts(u) && Inv(u, n) && Enabled(u, n, e) && e.RelDelete?
    ensures BootOk(Apply(u, n, e))
  {
    hide ShortHex, NoDashes, Lowest, Release, Reconcile, Careful, SingleOwner, PoolOk, KernelOk, PayloadOk;
    var n' := Apply(u, n, e);
    assert forall x :: Current(n', x) == Current(n, x);
    hide Inv, ProcsOk, ProcOk, Mine, DistinctShorts, Current;
  }

  lemma PhaseKeptRelease(u: set<Id>, n: Net, e: Event)
    requires DistinctShorts(u) && Inv(u, n) && Enabled(u, n, e) && e.RelFree?
    ensures BootOk(Apply(u, n, e))
  {
    hide ShortHex, NoDashes, Lowest, Release, Reconcile, SingleOwner, PoolOk, KernelOk, PayloadOk;
    assert ProcOk(u, n, e.id, n.procs[e.id]);
    var n' := Apply(u, n, e);
    assert forall x :: x != e.id ==> Current(n', x) == Current(n, x);
    hide Inv, ProcsOk, DistinctShorts, Current;
  }

  lemma LedgerKept(u: set<Id>, n: Net, e: Event)
    requires DistinctShorts(u) && Inv(u, n) && Enabled(u, n, e)
    ensures SingleOwner(Apply(u, n, e).rows) && KernelOk(Apply(u, n, e)) && PoolOk(Apply(u, n, e))
  {
    hide Inv, Enabled, Possible, Apply;
    if e.Crash? || e.HostReboot? { LedgerKeptReset(u, n, e); }
    else if Boots(e) && !e.Crash? && !e.HostReboot? { LedgerKeptStage(u, n, e); }
    else if e.PrebuildClaim? || e.BuildAbort? { LedgerKeptPool(u, n, e); }
    else if e.BuildClear? || e.BuildFail? { LedgerKeptClear(u, n, e); }
    else if e.BuildAdd? || e.Park? { LedgerKeptAdd(u, n, e); }
    else if e.Pop? || e.SaveFast? { LedgerKeptPopSave(u, n, e); }
    else if e.Adopt? { LedgerKeptTake(u, n, e); }
    else if e.SlowClaim? { LedgerKeptClaim(u, n, e); }
    else if e.SlowClear? { LedgerKeptSlowClear(u, n, e); }
    else if e.SlowAdd? || e.SlowSave? { LedgerKeptSlowAdd(u, n, e); }
    else if e.SlowFail? { LedgerKeptFail(u, n, e); }
    else if e.SlowAbort? { LedgerKeptAbort(u, n, e); }
    else if e.RelBegin? { LedgerKeptBegin(u, n, e); }
    else if e.RelDestroy? { LedgerKeptKill(u, n, e); }
    else if e.RelDelete? { LedgerKeptDelete(u, n, e); }
    else if e.RelFree? { LedgerKeptRelease(u, n, e); }
  }

  lemma PayloadKept(u: set<Id>, n: Net, e: Event)
    requires DistinctShorts(u) && Inv(u, n) && Enabled(u, n, e)
    ensures PayloadOk(u, Apply(u, n, e))
  {
    hide Inv, Enabled, Possible, Apply;
    if Boots(e) { PayloadKeptBoot(u, n, e); }
    else if e.PrebuildClaim? || e.BuildAbort? { PayloadKeptPool(u, n, e); }
    else if Builds(e) { PayloadKeptBuild(u, n, e); }
    else if Adopts(e) { PayloadKeptAdopt(u, n, e); }
    else if e.SlowClaim? { PayloadKeptClaim(u, n, e); }
    else if Slows(e) { PayloadKeptSlow(u, n, e); }
    else if Undoes(e) { PayloadKeptUndo(u, n, e); }
    else if e.RelBegin? { PayloadKeptBegin(u, n, e); }
    else if e.RelDestroy? { PayloadKeptKill(u, n, e); }
    else if Frees(e) { PayloadKeptFree(u, n, e); }
  }

  lemma ProcsKept(u: set<Id>, n: Net, e: Event)
    requires DistinctShorts(u) && Inv(u, n) && Enabled(u, n, e)
    ensures ProcsOk(u, Apply(u, n, e))
  {
    hide Inv, Enabled, Possible, Apply;
    if e.Crash? || e.HostReboot? { ProcsKeptReset(u, n, e); }
    else if Boots(e) && !e.Crash? && !e.HostReboot? && !e.SweepOne? && !e.SweepDone? { ProcsKeptLook(u, n, e); }
    else if e.SweepOne? || e.SweepDone? { ProcsKeptSweep(u, n, e); }
    else if e.PrebuildClaim? || e.BuildAbort? { ProcsKeptPool(u, n, e); }
    else if e.BuildClear? || e.BuildFail? { ProcsKeptClear(u, n, e); }
    else if e.BuildAdd? || e.Park? { ProcsKeptAdd(u, n, e); }
    else if e.Pop? || e.SaveFast? { ProcsKeptPopSave(u, n, e); }
    else if e.Adopt? { ProcsKeptTake(u, n, e); }
    else if e.SlowClaim? { ProcsKeptClaim(u, n, e); }
    else if e.SlowClear? { ProcsKeptSlowClear(u, n, e); }
    else if e.SlowAdd? { ProcsKeptNameAdd(u, n, e); }
    else if e.SlowSave? { ProcsKeptSlowSave(u, n, e); }
    else if e.SlowFail? { ProcsKeptFail(u, n, e); }
    else if e.SlowAbort? { ProcsKeptAbort(u, n, e); }
    else if e.RelBegin? { ProcsKeptBegin(u, n, e); }
    else if e.RelDestroy? { ProcsKeptKill(u, n, e); }
    else if e.RelDelete? { ProcsKeptDelete(u, n, e); }
    else if e.RelFree? { ProcsKeptRelease(u, n, e); }
  }

  lemma PhaseKept(u: set<Id>, n: Net, e: Event)
    requires DistinctShorts(u) && Inv(u, n) && Enabled(u, n, e)
    ensures BootOk(Apply(u, n, e))
  {
    hide Inv, Enabled, Possible, Apply;
    if e.Crash? || e.HostReboot? { PhaseKeptReset(u, n, e); }
    else if Boots(e) && !e.Crash? && !e.HostReboot? && !e.SweepOne? && !e.SweepDone? { PhaseKeptLook(u, n, e); }
    else if e.SweepOne? || e.SweepDone? { PhaseKeptSweep(u, n, e); }
    else if e.PrebuildClaim? || e.BuildAbort? { PhaseKeptPool(u, n, e); }
    else if e.BuildClear? || e.BuildFail? { PhaseKeptClear(u, n, e); }
    else if e.BuildAdd? || e.Park? { PhaseKeptAdd(u, n, e); }
    else if e.Pop? || e.SaveFast? { PhaseKeptPopSave(u, n, e); }
    else if e.Adopt? { PhaseKeptTake(u, n, e); }
    else if e.SlowClaim? { PhaseKeptClaim(u, n, e); }
    else if Slows(e) { PhaseKeptSlow(u, n, e); }
    else if e.SlowFail? { PhaseKeptFail(u, n, e); }
    else if e.SlowAbort? { PhaseKeptAbort(u, n, e); }
    else if e.RelBegin? { PhaseKeptBegin(u, n, e); }
    else if e.RelDestroy? { PhaseKeptKill(u, n, e); }
    else if e.RelDelete? { PhaseKeptDelete(u, n, e); }
    else if e.RelFree? { PhaseKeptRelease(u, n, e); }
  }
}
