/** What the network machine guarantees over whole runs, and the ways out of the guarantee that lie in the order of things:
    a failed payload save, two ids with one short form, a second allocation without a release, a reboot of the host, two
    releases of one sandbox. Steps that fail are in NetFaults. */
module NetSafety {
  import opened Bytes
  import opened SlotStores
  import opened NetMachine
  import NetSteps

  lemma StepKeepsInv(u: set<Id>, n: Net, e: Event)
    requires DistinctShorts(u) && Inv(u, n)
    ensures Inv(u, Step(u, n, e))
  {
    hide Enabled, Possible, Apply, SingleOwner, KernelOk, PoolOk, PayloadOk, ProcsOk, BootOk, DistinctShorts;
    if Enabled(u, n, e) {
      NetSteps.LedgerKept(u, n, e);
      NetSteps.PayloadKept(u, n, e);
      NetSteps.ProcsKept(u, n, e);
      NetSteps.PhaseKept(u, n, e);
    }
  }

  lemma {:induction false} RunsKeepInv(u: set<Id>, capacity: nat, es: seq<Event>)
    requires DistinctShorts(u)
    ensures Inv(u, Exec(u, NewHost(capacity), es))
  {
    if es == [] {
    } else {
      hide Inv, Step, DistinctShorts;
      RunsKeepInv(u, capacity, es[..|es| - 1]);
      StepKeepsInv(u, Exec(u, NewHost(capacity), es[..|es| - 1]), es[|es| - 1]);
    }
  }

  // ---- a free /30 is clean, and a /30 has one namespace ----

  ghost predicate Poisoned(n: Net, i: nat) {
    i < |n.rows| && n.rows[i].None? && exists m :: m in n.kernel && IsNs(m) && n.kernel[m] == i
  }

  ghost predicate Ambiguous(n: Net, i: nat) {
    exists a, b :: a in n.kernel && b in n.kernel && IsNs(a) && IsNs(b) && a != b && n.kernel[a] == i && n.kernel[b] == i
  }

  /** Whatever crashed before, once the boot sweep is over no free index keeps a namespace, no /30 has two (so
      ClearStaleHolders has nobody to clear), and no sandbox owns two slots. */
  lemma NoPoisonedSlot(u: set<Id>, capacity: nat, es: seq<Event>, i: nat)
    requires DistinctShorts(u)
    ensures var n := Exec(u, NewHost(capacity), es);
            SingleOwner(n.rows) && (n.phase == Running(true) ==> !Poisoned(n, i) && !Ambiguous(n, i))
  {
    var n := Exec(u, NewHost(capacity), es);
    RunsKeepInv(u, capacity, es);
    hide Exec, ShortHex;
    assert BootOk(n) && SingleOwner(n.rows);
    if n.phase == Running(true) {
      assert Clean(n);
    }
  }

  lemma PoppedIsSentinel(u: set<Id>, n: Net, id: Id)
    requires Inv(u, n) && id in n.procs && n.procs[id].Popped?
    ensures var i := n.procs[id].idx;
            i < |n.rows| && n.rows[i] == Some(Prebuilt(i)) && Pre(i) in n.kernel && n.kernel[Pre(i)] == i
  {
    hide ShortHex, BootOk, PayloadOk, SingleOwner;
    assert ProcOk(u, n, id, n.procs[id]);
  }

  /** A slot taken from the free list is still the agent's sentinel and its namespace is up: Reassign never refuses. */
  lemma AdoptionNeverRefused(u: set<Id>, capacity: nat, es: seq<Event>, id: Id)
    requires DistinctShorts(u)
    ensures var n := Exec(u, NewHost(capacity), es);
            id in n.procs && n.procs[id].Popped? ==>
              var i := n.procs[id].idx;
              && i < |n.rows| && n.rows[i] == Some(Prebuilt(i)) && Pre(i) in n.kernel && n.kernel[Pre(i)] == i
              && Step(u, n, Adopt(id, true, true)).procs[id] == Adopted(i)
  {
    hide Exec, ShortHex, Inv, DistinctShorts;
    RunsKeepInv(u, capacity, es);
    var n := Exec(u, NewHost(capacity), es);
    if id in n.procs && n.procs[id].Popped? {
      PoppedIsSentinel(u, n, id);
    }
  }

  // ---- a sandbox keeps its namespace ----

  /** The payload row names a namespace that exists, on a /30 the sandbox owns. */
  ghost predicate Connected(n: Net, id: Id) {
    && id in n.payload && n.payload[id] in n.kernel && IsNs(n.payload[id])
    && Owns(n, id, n.kernel[n.payload[id]])
  }

  /** Both ways to allocate end with the sandbox connected. */
  lemma AllocationConnects(u: set<Id>, n: Net, id: Id, e: Event)
    requires DistinctShorts(u) && Inv(u, n) && Enabled(u, n, e) && (e == SaveFast(id) || e == SlowSave(id))
    ensures Connected(Step(u, n, e), id) && Step(u, n, e).kernel == n.kernel && id !in Step(u, n, e).procs
  {
    hide ShortHex, BootOk, PayloadOk;
    assert ProcOk(u, n, id, n.procs[id]);
  }

  /** Nobody is releasing the sandbox, and it has a row or at least its agent is still up. */
  predicate Held(n: Net, id: Id) { id !in n.procs && id !in n.retired && (id in n.live || n.phase.Running?) }

  predicate Touches(e: Event, id: Id) { (e.RelBegin? && e.id == id) || e == DeleteRow(id) || e.HostReboot? }

  lemma HeldSurvivesBoot(u: set<Id>, n: Net, e: Event, id: Id)
    requires DistinctShorts(u) && Inv(u, n) && Enabled(u, n, e) && Held(n, id) && Connected(n, id) && id in n.live
    requires NetSteps.Boots(e) && !e.SweepOne? && !e.DoReconcile? && !Touches(e, id)
    ensures var n' := Apply(u, n, e);
            && Held(n', id) && Connected(n', id) && id in n'.live
            && n'.payload[id] == n.payload[id] && n'.kernel[n'.payload[id]] == n.kernel[n.payload[id]]
  {
    hide ShortHex, NoDashes, Careful, SingleOwner, PoolOk, ProcsOk, KernelOk;
    assert Mine(n, id, n.payload[id]);
    hide PayloadOk, DistinctShorts;
  }

  lemma HeldSurvivesReconcile(u: set<Id>, n: Net, e: Event, id: Id)
    requires DistinctShorts(u) && Inv(u, n) && Enabled(u, n, e) && Held(n, id) && Connected(n, id) && id in n.live
    requires e.DoReconcile?
    ensures var n' := Apply(u, n, e);
            && Held(n', id) && Connected(n', id) && id in n'.live
            && n'.payload[id] == n.payload[id] && n'.kernel[n'.payload[id]] == n.kernel[n.payload[id]]
  {
    hide ShortHex, NoDashes, Careful, SingleOwner, PoolOk, ProcsOk, KernelOk, PayloadOk, DistinctShorts;
  }

  lemma HeldSurvivesSweep(u: set<Id>, n: Net, e: Event, id: Id)
    requires DistinctShorts(u) && Inv(u, n) && Enabled(u, n, e) && Held(n, id) && Connected(n, id) && id in n.live
    requires e.SweepOne?
    ensures var n' := Apply(u, n, e);
            && Held(n', id) && Connected(n', id) && id in n'.live
            && n'.payload[id] == n.payload[id] && n'.kernel[n'.payload[id]] == n.kernel[n.payload[id]]
  {
    hide ShortHex, NoDashes, Careful, SingleOwner, PoolOk, ProcsOk, KernelOk, PayloadOk, DistinctShorts;
  }

  lemma HeldSurvivesPool(u: set<Id>, n: Net, e: Event, id: Id)
    requires DistinctShorts(u) && Inv(u, n) && Enabled(u, n, e) && Held(n, id) && Connected(n, id) && id in n.live
    requires e.PrebuildClaim? || e.BuildAbort?
    ensures var n' := Apply(u, n, e);
            && Held(n', id) && Connected(n', id) && id in n'.live
            && n'.payload[id] == n.payload[id] && n'.kernel[n'.payload[id]] == n.kernel[n.payload[id]]
  {
    hide ShortHex, NoDashes, Careful, SingleOwner, BootOk, ProcsOk, KernelOk;
    assert id in u && Mine(n, id, n.payload[id]);
    hide Inv, PoolOk, PayloadOk, DistinctShorts;
  }

  lemma HeldSurvivesBuild(u: set<Id>, n: Net, e: Event, id: Id)
    requires DistinctShorts(u) && Inv(u, n) && Enabled(u, n, e) && Held(n, id) && Connected(n, id) && id in n.live
    requires NetSteps.Builds(e)
    ensures var n' := Apply(u, n, e);
            && Held(n', id) && Connected(n', id) && id in n'.live
            && n'.payload[id] == n.payload[id] && n'.kernel[n'.payload[id]] == n.kernel[n.payload[id]]
  {
    hide ShortHex, NoDashes, Careful, Lowest, Release, SingleOwner, BootOk, ProcsOk;
    assert id in u && Mine(n, id, n.payload[id]);
    assert e.i < |n.rows| && n.rows[e.i] == Some(Prebuilt(e.i));
    hide Inv, PoolOk, PayloadOk, DistinctShorts, KernelOk;
  }

  lemma HeldSurvivesPop(u: set<Id>, n: Net, e: Event, id: Id)
    requires DistinctShorts(u) && Inv(u, n) && Enabled(u, n, e) && Held(n, id) && Connected(n, id) && id in n.live
    requires e.Pop? || e.SaveFast?
    ensures var n' := Apply(u, n, e);
            && Held(n', id) && Connected(n', id) && id in n'.live
            && n'.payload[id] == n.payload[id] && n'.kernel[n'.payload[id]] == n.kernel[n.payload[id]]
  {
    hide ShortHex, NoDashes, Reconcile, Release, Lowest, ClaimIdx, SingleOwner, BootOk, KernelOk;
    assert id in u && Mine(n, id, n.payload[id]);
    if e.id in n.procs {
      assert ProcOk(u, n, e.id, n.procs[e.id]);
    }
    hide Inv, PoolOk, ProcsOk, PayloadOk, DistinctShorts;
  }

  lemma HeldSurvivesAdopt(u: set<Id>, n: Net, e: Event, id: Id)
    requires DistinctShorts(u) && Inv(u, n) && Enabled(u, n, e) && Held(n, id) && Connected(n, id) && id in n.live
    requires e.Adopt?
    ensures var n' := Apply(u, n, e);
            && Held(n', id) && Connected(n', id) && id in n'.live
            && n'.payload[id] == n.payload[id] && n'.kernel[n'.payload[id]] == n.kernel[n.payload[id]]
  {
    hide ShortHex, NoDashes, Reconcile, Release, Lowest, ClaimIdx, SingleOwner, BootOk, KernelOk;
    assert id in u && Mine(n, id, n.payload[id]);
    assert ProcOk(u, n, e.id, n.procs[e.id]);
    assert n.rows[n.procs[e.id].idx] == Some(Prebuilt(n.procs[e.id].idx));
    hide Inv, PoolOk, ProcOk, ProcsOk, PayloadOk, DistinctShorts;
  }

  lemma HeldSurvivesSlow(u: set<Id>, n: Net, e: Event, id: Id)
    requires DistinctShorts(u) && Inv(u, n) && Enabled(u, n, e) && Held(n, id) && Connected(n, id) && id in n.live
    requires e.SlowClaim? || NetSteps.Slows(e)
    ensures var n' := Apply(u, n, e);
            && Held(n', id) && Connected(n', id) && id in n'.live
            && n'.payload[id] == n.payload[id] && n'.kernel[n'.payload[id]] == n.kernel[n.payload[id]]
  {
    hide ShortHex, NoDashes, Reconcile, Release, SingleOwner, BootOk, KernelOk;
    assert id in u && Mine(n, id, n.payload[id]);
    if e.id in n.procs {
      assert ProcOk(u, n, e.id, n.procs[e.id]);
    }
    assert e.id in u && (e.id != id ==> ShortHex(e.id) != ShortHex(id));
    hide Inv, ProcsOk, PayloadOk, DistinctShorts;
  }

  lemma HeldSurvivesDestroy(u: set<Id>, n: Net, e: Event, id: Id)
    requires DistinctShorts(u) && Inv(u, n) && Enabled(u, n, e) && Held(n, id) && Connected(n, id) && id in n.live
    requires e.RelDestroy? || NetSteps.Undoes(e)
    ensures var n' := Apply(u, n, e);
            && Held(n', id) && Connected(n', id) && id in n'.live
            && n'.payload[id] == n.payload[id] && n'.kernel[n'.payload[id]] == n.kernel[n.payload[id]]
  {
    hide ShortHex, NoDashes, Careful, Lowest, Release, Reconcile, SingleOwner, BootOk, KernelOk, PoolOk;
    assert id in u && Mine(n, id, n.payload[id]);
    assert e.id in u && e.id !in n.retired && e.id != id && ShortHex(e.id) != ShortHex(id) by {
      assert ProcOk(u, n, e.id, n.procs[e.id]);
    }
    assert e.RelDestroy? && n.procs[e.id].name.Some? ==> n.procs[e.id].name == Get(n.payload, e.id) by { assert ProcOk(u, n, e.id, n.procs[e.id]); }
    assert e.id in n.payload ==> Mine(n, e.id, n.payload[e.id]);
    hide Inv, ProcsOk, PayloadOk, DistinctShorts, ProcOk;
  }

  lemma HeldSurvivesRelease(u: set<Id>, n: Net, e: Event, id: Id)
    requires DistinctShorts(u) && Inv(u, n) && Enabled(u, n, e) && Held(n, id) && Connected(n, id) && id in n.live
    requires e.RelBegin? || NetSteps.Frees(e)
    requires !Touches(e, id)
    ensures var n' := Apply(u, n, e);
            && Held(n', id) && Connected(n', id) && id in n'.live
            && n'.payload[id] == n.payload[id] && n'.kernel[n'.payload[id]] == n.kernel[n.payload[id]]
  {
    hide ShortHex, NoDashes, Careful, Lowest, Release, Reconcile, SingleOwner, BootOk, KernelOk, PoolOk, PayloadOk;
  }

  /** From any reachable state on, through other sandboxes' allocations and releases, the prewarmer, crashes and boots:
      a connected sandbox with a row keeps its namespace and its /30 until its own release begins or its row goes. */
  lemma {:induction false} HeldStaysConnected(u: set<Id>, n: Net, es: seq<Event>, id: Id)
    requires DistinctShorts(u) && Inv(u, n) && Held(n, id) && Connected(n, id) && id in n.live
    requires forall k :: 0 <= k < |es| ==> !Touches(es[k], id)
    ensures var n' := Exec(u, n, es);
            && Inv(u, n') && Held(n', id) && Connected(n', id) && id in n'.live
            && n'.payload[id] == n.payload[id] && n'.kernel[n'.payload[id]] == n.kernel[n.payload[id]]
  {
    hide Inv, Enabled, Possible, Apply, DistinctShorts, Connected, Held, Touches;
    if es == [] {
    } else {
      HeldStaysConnected(u, n, es[..|es| - 1], id);
      var p, e := Exec(u, n, es[..|es| - 1]), es[|es| - 1];
      StepKeepsInv(u, p, e);
      if Enabled(u, p, e) {
        if e.SweepOne? {
          HeldSurvivesSweep(u, p, e, id);
        } else if e.DoReconcile? {
          HeldSurvivesReconcile(u, p, e, id);
        } else if NetSteps.Boots(e) {
          HeldSurvivesBoot(u, p, e, id);
        } else if e.PrebuildClaim? || e.BuildAbort? {
          HeldSurvivesPool(u, p, e, id);
        } else if NetSteps.Builds(e) {
          HeldSurvivesBuild(u, p, e, id);
        } else if e.Pop? || e.SaveFast? {
          HeldSurvivesPop(u, p, e, id);
        } else if e.Adopt? {
          HeldSurvivesAdopt(u, p, e, id);
        } else if e.SlowClaim? || NetSteps.Slows(e) {
          HeldSurvivesSlow(u, p, e, id);
        } else if e.RelDestroy? || NetSteps.Undoes(e) {
          HeldSurvivesDestroy(u, p, e, id);
        } else {
          HeldSurvivesRelease(u, p, e, id);
        }
      }
    }
  }

  /** The boot sweep never names the namespace of a sandbox that has a row. */
  lemma SweepSparesLive(u: set<Id>, capacity: nat, es: seq<Event>, m: NsName, ok: bool, id: Id)
    requires DistinctShorts(u)
    ensures var n := Exec(u, NewHost(capacity), es);
            Enabled(u, n, SweepOne(m, ok)) ==> IsNs(m)
    ensures var n := Exec(u, NewHost(capacity), es);
            Enabled(u, n, SweepOne(m, ok)) && id in n.live && id in n.payload ==> n.payload[id] != m
  {
    RunsKeepInv(u, capacity, es);
    hide Exec, ShortHex;
    assert BootOk(Exec(u, NewHost(capacity), es));
  }

  // ---- outside the guarantee ----

  /** SaveAllocation failed after the adoption: the slot is released first, the namespace destroyed second. */
  function RollbackFree(n: Net, id: Id): Net { EndProc(n.(rows := Release(n.rows, Sandbox(id))), id) }

  /** Between the two steps of that rollback the index is free with its namespace up, always. A crash there is
      harmless, for the boot sweep starts from a state the invariant allows. */
  lemma FailedSavePoisons(u: set<Id>, n: Net, id: Id)
    requires DistinctShorts(u) && Inv(u, n) && n.phase.Running? && id in n.procs && n.procs[id].Adopted?
    ensures var i := n.procs[id].idx;
            && Poisoned(RollbackFree(n, id), i)
            && (n.phase.clean ==> !Poisoned(Destroy(RollbackFree(n, id), Pre(i)), i))
            && Inv(u, Step(u, RollbackFree(n, id), Crash))
  {
    hide ShortHex;
    var i := n.procs[id].idx;
    assert ProcOk(u, n, id, Adopted(i)) && (n.phase.clean ==> Clean(n));
    assert Pre(i) in n.kernel && n.kernel[Pre(i)] == i;
  }

  lemma ThreeSteps(u: set<Id>, n: Net, a: Event, b: Event, c: Event)
    ensures Exec(u, n, [a, b, c]) == Step(u, Step(u, Step(u, n, a), b), c)
  {
    hide Step;
    assert [a, b, c][..2] == [a, b] && [a, b][..1] == [a] && [a][..0] == [];
    assert Exec(u, n, [a]) == Step(u, n, a);
    assert Exec(u, n, [a, b]) == Step(u, Step(u, n, a), b);
  }

  /** What the window costs: a sandbox that claims the index inside it ends up sharing the /30 with the old namespace. */
  lemma PoisonCollides(u: set<Id>, n: Net, i: nat, b: Id)
    requires i < |n.rows| && n.rows[i].None? && Pre(i) in n.kernel && n.kernel[Pre(i)] == i
    requires CanAllocate(u, n, b) && ClaimIdx(n.rows, b) == Some(i)
    ensures Ambiguous(Exec(u, n, [SlowClaim(b), SlowClear(b), SlowAdd(b)]), i)
  {
    hide ShortHex, NoDashes, ClaimIdx, Lowest, Exec, Enabled, Apply, Step;
    ThreeSteps(u, n, SlowClaim(b), SlowClear(b), SlowAdd(b));
    var s1 := Step(u, n, SlowClaim(b));
    ClaimStep(u, n, b);
    var s2 := Step(u, s1, SlowClear(b));
    BuildSteps(u, s1, b, i);
    var s3 := Step(u, s2, SlowAdd(b));
    BuildSteps(u, s2, b, i);
    assert Pre(i) in s3.kernel && NsOf(b) in s3.kernel && s3.kernel[NsOf(b)] == i;
  }

  lemma ClaimStep(u: set<Id>, n: Net, b: Id)
    requires CanAllocate(u, n, b) && ClaimIdx(n.rows, b).Some?
    ensures var s := Step(u, n, SlowClaim(b));
            b in s.procs && s.procs[b] == SlowClaimed(ClaimIdx(n.rows, b).value) && s.kernel == n.kernel
  {
    hide ShortHex, NoDashes, ClaimIdx, Lowest;
  }

  /** The two steps of netns.Create on the slow path: clear the name, then add it. */
  lemma BuildSteps(u: set<Id>, n: Net, b: Id, i: nat)
    requires b in n.procs
    ensures n.procs[b] == SlowClaimed(i) ==>
      var s := Step(u, n, SlowClear(b));
      b in s.procs && s.procs[b] == SlowCleared(i) && s.kernel == n.kernel - {NsOf(b)}
    ensures n.procs[b] == SlowCleared(i) ==> Step(u, n, SlowAdd(b)).kernel == n.kernel[NsOf(b) := i]
  {
    hide ShortHex, NoDashes;
  }

  /** Clearing the way for b's namespace spares a's exactly when their short forms differ. */
  lemma ClearSparesIffShortsDiffer(u: set<Id>, n: Net, a: Id, b: Id)
    requires a in n.payload && n.payload[a] == NsOf(a) && NsOf(a) in n.kernel && Enabled(u, n, SlowClear(b))
    ensures Get(Step(u, n, SlowClear(b)).payload, a) == Some(NsOf(a))
    ensures NsOf(a) in Step(u, n, SlowClear(b)).kernel <==> ShortHex(a) != ShortHex(b)
  {
    hide ShortHex;
  }

  /** The k-th character of an id that is not a dash. */
  function NonDash(id: Id, k: nat): Option<char> {
    if id == [] then None
    else if id[0] == '-' then NonDash(id[1..], k)
    else if k == 0 then Some(id[0])
    else NonDash(id[1..], k - 1)
  }

  lemma {:induction false} NonDashIs(id: Id, k: nat)
    ensures NonDash(id, k) == if k < |NoDashes(id)| then Some(NoDashes(id)[k]) else None
  {
    if id != [] {
      if id[0] == '-' {
        NonDashIs(id[1..], k);
      } else if k > 0 {
        NonDashIs(id[1..], k - 1);
      }
    }
  }

  ghost predicate SameTen(a: Id, b: Id) { forall k :: 0 <= k < 10 ==> NonDash(a, k) == NonDash(b, k) }

  /** Two ids share their short form exactly when their first ten characters, dashes not counted, agree. */
  lemma ShortHexCollides(a: Id, b: Id)
    ensures ShortHex(a) == ShortHex(b) <==> SameTen(a, b)
  {
    hide NonDash;
    var x, y := ShortHex(a), ShortHex(b);
    forall k | 0 <= k < 10
      ensures NonDash(a, k) == if k < |x| then Some(x[k]) else None
      ensures NonDash(b, k) == if k < |y| then Some(y[k]) else None
    {
      NonDashIs(a, k);
      NonDashIs(b, k);
    }
    assert x == y ==> SameTen(a, b);
    if SameTen(a, b) {
      assert |x| < 10 ==> NonDash(a, |x|).None? && NonDash(b, |x|).None?;
      assert |y| < 10 ==> NonDash(a, |y|).None? && NonDash(b, |y|).None?;
      assert |x| == |y|;
      forall k | 0 <= k < |x| ensures x[k] == y[k] {
        assert NonDash(a, k) == NonDash(b, k);
      }
      assert x == y;
    }
  }

  /** The ids the manager makes are UUIDs: eight digits, a dash, and more digits. */
  predicate UuidShaped(id: Id) { |id| >= 11 && '-' !in id[..8] && id[8] == '-' && '-' !in id[9..11] }

  lemma {:induction false} NoDashesPrefix(p: string, rest: string)
    requires '-' !in p
    ensures NoDashes(p + rest) == p + NoDashes(rest)
  {
    if p == [] {
      assert p + rest == rest;
    } else {
      assert (p + rest)[1..] == p[1..] + rest;
      NoDashesPrefix(p[1..], rest);
    }
  }

  lemma ShortOfUuid(id: Id)
    requires UuidShaped(id)
    ensures ShortHex(id) == id[..8] + id[9..11]
  {
    assert id == id[..8] + id[8..] && id[8..][0] == '-' && id[8..][1..] == id[9..] == id[9..11] + id[11..];
    NoDashesPrefix(id[..8], id[8..]);
    NoDashesPrefix(id[9..11], id[11..]);
    assert NoDashes(id) == (id[..8] + id[9..11]) + NoDashes(id[11..]);
  }

  /** UUIDs share their short form exactly when their first eleven characters agree. */
  lemma UuidsCollideIff(a: Id, b: Id)
    requires UuidShaped(a) && UuidShaped(b)
    ensures ShortHex(a) == ShortHex(b) <==> a[..11] == b[..11]
  {
    ShortOfUuid(a);
    ShortOfUuid(b);
    assert a[..11] == a[..8] + ['-'] + a[9..11] && b[..11] == b[..8] + ['-'] + b[9..11];
    if ShortHex(a) == ShortHex(b) {
      assert a[..8] == ShortHex(a)[..8] == b[..8];
      assert a[9..11] == ShortHex(a)[8..] == b[9..11];
    }
  }

  /** Two ids the manager could make. */
  lemma TwoUuidsCollide()
    ensures var p := "01234567-89";
            var a, b := p + "ab-4def-8123-456789abcdef", p + "cd-4def-8123-456789abcdef";
            UuidShaped(a) && UuidShaped(b) && a != b && ShortHex(a) == ShortHex(b)
  {
    hide ShortHex;
    var p := "01234567-89";
    var a, b := p + "ab-4def-8123-456789abcdef", p + "cd-4def-8123-456789abcdef";
    assert a[11] == 'a' && b[11] == 'c';
    assert a[..11] == p == b[..11];
    assert a[..8] == "01234567" == b[..8] && a[9..11] == "89" == b[9..11];
    UuidsCollideIff(a, b);
  }

  // ---- a second allocation without a release ----

  lemma OneMore(u: set<Id>, n: Net, es: seq<Event>, e: Event)
    ensures AnyExec(u, n, es + [e]) == AnyStep(u, AnyExec(u, n, es), e)
  {
    hide AnyStep;
    assert (es + [e])[..|es|] == es;
  }

  lemma ThreeMore(u: set<Id>, n: Net, a: Event, b: Event, c: Event)
    ensures AnyExec(u, n, [a, b, c]) == AnyStep(u, AnyStep(u, AnyStep(u, n, a), b), c)
  {
    hide AnyStep;
    OneMore(u, n, [], a);
    OneMore(u, n, [a], b);
    OneMore(u, n, [a, b], c);
    assert [] + [a] == [a] && [a] + [b] == [a, b] && [a, b] + [c] == [a, b, c];
    assert AnyExec(u, n, []) == n;
  }

  function SlowPath(id: Id): seq<Event> { [SlowClaim(id), SlowClear(id), SlowAdd(id)] + [SlowSave(id)] }

  function FastPath(id: Id, i: nat): seq<Event> { [NetMachine.Event.Pop(id, i), Adopt(id, true, true), SaveFast(id)] }

  /** A release, and what of it works: the payload read, the removal of the namespace, the payload delete. */
  function FaultyRelease(id: Id, read: bool, gone: bool, deleted: bool): seq<Event> {
    [RelBegin(id, read), RelDestroy(id, gone), RelDelete(id, deleted)] + [RelFree(id, true)]
  }

  function Releasing(id: Id): seq<Event> { FaultyRelease(id, true, true, true) }

  lemma PopStep(u: set<Id>, n: Net, id: Id, i: nat)
    requires CanStart(u, n, id) && i in n.pool && n.pool[i].Parked?
    ensures AnyStep(u, n, NetMachine.Event.Pop(id, i)) == n.(pool := n.pool[i := PoppedBy(id)], procs := n.procs[id := Popped(i)])
  {
    hide ShortHex, NoDashes;
  }

  lemma ClaimSlotStep(u: set<Id>, n: Net, id: Id)
    requires CanStart(u, n, id) && ClaimIdx(n.rows, id).Some?
    ensures var i := ClaimIdx(n.rows, id).value;
            i < |n.rows|
            && AnyStep(u, n, SlowClaim(id)) == n.(rows := n.rows[i := Some(Sandbox(id))], procs := n.procs[id := SlowClaimed(i)])
  {
    hide ShortHex, NoDashes, Lowest;
  }

  lemma BeginStep(u: set<Id>, n: Net, id: Id, ok: bool)
    requires CanStart(u, n, id)
    ensures AnyStep(u, n, RelBegin(id, ok))
         == n.(procs := n.procs[id := RelRead(if ok then Get(n.payload, id) else None, Get(n.payload, id))])
  {
    hide ShortHex, NoDashes;
  }

  /** The next step of an allocation under way. */
  lemma NextStep(u: set<Id>, n: Net, id: Id)
    requires id in n.procs
    ensures match n.procs[id]
      case Popped(i) =>
        i < |n.rows| && n.rows[i] == Some(Prebuilt(i)) ==>
          AnyStep(u, n, Adopt(id, true, true)) == n.(rows := n.rows[i := Some(Sandbox(id))], pool := n.pool - {i}, procs := n.procs[id := Adopted(i)])
      case Adopted(i) => AnyStep(u, n, SaveFast(id)) == n.(payload := n.payload[id := Pre(i)], procs := n.procs - {id})
      case SlowClaimed(i) => AnyStep(u, n, SlowClear(id)) == n.(kernel := n.kernel - {NsOf(id)}, procs := n.procs[id := SlowCleared(i)])
      case SlowCleared(i) => AnyStep(u, n, SlowAdd(id)) == n.(kernel := n.kernel[NsOf(id) := i], procs := n.procs[id := SlowBuilt(i)])
      case SlowBuilt(i) => AnyStep(u, n, SlowSave(id)) == n.(payload := n.payload[id := NsOf(id)], procs := n.procs - {id})
      case _ => true
  {
    hide ShortHex, NoDashes, Release, ClaimIdx;
  }

  /** And of a release. */
  lemma NextRelease(u: set<Id>, n: Net, id: Id, ok: bool)
    requires id in n.procs
    ensures match n.procs[id]
      case RelRead(m, left) =>
        AnyStep(u, n, RelDestroy(id, ok)) == n.(
          kernel := if m.Some? && ok then n.kernel - {m.value} else n.kernel,
          procs := n.procs[id := RelDestroyed(if m.Some? && ok then None else left)])
      case RelDestroyed(left) =>
        AnyStep(u, n, RelDelete(id, ok)) == n.(
          payload := if ok then n.payload - {id} else n.payload, procs := n.procs[id := RelDeleted(left)])
      case RelDeleted(_) =>
        AnyStep(u, n, RelFree(id, ok)) == n.(
          rows := if ok then Release(n.rows, Sandbox(id)) else n.rows, procs := n.procs - {id})
      case _ => true
  {
    hide ShortHex, NoDashes, Release, ClaimIdx;
  }

  /** What the slow path leaves behind when nothing else runs, whatever the sandbox held before. */
  lemma SlowPathEnd(u: set<Id>, n: Net, id: Id, i: nat)
    requires CanStart(u, n, id) && ClaimIdx(n.rows, id) == Some(i)
    ensures i < |n.rows|
    ensures AnyExec(u, n, SlowPath(id)) == n.(
              rows := n.rows[i := Some(Sandbox(id))], kernel := (n.kernel - {NsOf(id)})[NsOf(id) := i],
              payload := n.payload[id := NsOf(id)])
  {
    hide ShortHex, NoDashes, ClaimIdx, AnyStep, AnyExec;
    ThreeMore(u, n, SlowClaim(id), SlowClear(id), SlowAdd(id));
    OneMore(u, n, [SlowClaim(id), SlowClear(id), SlowAdd(id)], SlowSave(id));
    ClaimSlotStep(u, n, id);
    var s1 := AnyStep(u, n, SlowClaim(id));
    NextStep(u, s1, id);
    var s2 := AnyStep(u, s1, SlowClear(id));
    NextStep(u, s2, id);
    var s3 := AnyStep(u, s2, SlowAdd(id));
    NextStep(u, s3, id);
    assert s3.procs - {id} == n.procs;
  }

  /** What the fast path leaves behind. */
  lemma FastPathEnd(u: set<Id>, n: Net, id: Id, i: nat)
    requires CanStart(u, n, id) && i in n.pool && n.pool[i].Parked? && i < |n.rows| && n.rows[i] == Some(Prebuilt(i))
    ensures AnyExec(u, n, FastPath(id, i)) == n.(
              rows := n.rows[i := Some(Sandbox(id))], pool := n.pool - {i}, payload := n.payload[id := Pre(i)])
  {
    hide ShortHex, NoDashes, AnyStep, AnyExec;
    ThreeMore(u, n, NetMachine.Event.Pop(id, i), Adopt(id, true, true), SaveFast(id));
    PopStep(u, n, id, i);
    var s1 := AnyStep(u, n, NetMachine.Event.Pop(id, i));
    NextStep(u, s1, id);
    var s2 := AnyStep(u, s1, Adopt(id, true, true));
    NextStep(u, s2, id);
    assert s2.procs - {id} == n.procs && s1.pool - {i} == n.pool - {i};
  }

  /** What a release leaves behind when nothing else runs. */
  lemma FaultyReleaseEnd(u: set<Id>, n: Net, id: Id, read: bool, gone: bool, deleted: bool)
    requires CanStart(u, n, id)
    ensures AnyExec(u, n, FaultyRelease(id, read, gone, deleted)) == n.(
              rows := Release(n.rows, Sandbox(id)),
              kernel := if id in n.payload && read && gone then n.kernel - {n.payload[id]} else n.kernel,
              payload := if deleted then n.payload - {id} else n.payload)
  {
    hide ShortHex, NoDashes, AnyStep, AnyExec, Release;
    ThreeMore(u, n, RelBegin(id, read), RelDestroy(id, gone), RelDelete(id, deleted));
    OneMore(u, n, [RelBegin(id, read), RelDestroy(id, gone), RelDelete(id, deleted)], RelFree(id, true));
    BeginStep(u, n, id, read);
    var s1 := AnyStep(u, n, RelBegin(id, read));
    NextRelease(u, s1, id, gone);
    var s2 := AnyStep(u, s1, RelDestroy(id, gone));
    NextRelease(u, s2, id, deleted);
    var s3 := AnyStep(u, s2, RelDelete(id, deleted));
    NextRelease(u, s3, id, true);
    assert s3.procs - {id} == n.procs;
  }

  /** Allocating by the slow path keeps ownership single, and puts two namespaces on the /30 exactly when the sandbox
      still has an adopted one on it. */
  lemma SlowReallocationIff(u: set<Id>, n: Net, id: Id, i: nat, j: nat)
    requires DistinctShorts(u) && Inv(u, n) && n.phase == Running(true) && CanStart(u, n, id) && ClaimIdx(n.rows, id) == Some(i)
    ensures var n' := AnyExec(u, n, SlowPath(id));
            && SingleOwner(n'.rows)
            && (Ambiguous(n', j) <==> j == i && Get(n.payload, id) == Some(Pre(i)) && Pre(i) in n.kernel)
  {
    hide ShortHex, NoDashes, AnyExec, PoolOk, ProcsOk;
    ClaimKeepsSingle(n.rows, id);
    SlowPathEnd(u, n, id, i);
    var n' := AnyExec(u, n, SlowPath(id));
    assert Clean(n) && KernelOk(n) && SingleOwner(n.rows);
    if Get(n.payload, id) == Some(Pre(i)) && Pre(i) in n.kernel {
      assert n.kernel[Pre(i)] == i;
      assert Pre(i) in n'.kernel && NsOf(id) in n'.kernel && n'.kernel[Pre(i)] == n'.kernel[NsOf(id)] == i;
    }
    OnlyOnOwn(n, id, i);
  }

  /** What sits on a slot that a claim by id returns is id's own namespace. */
  lemma OnlyOnOwn(n: Net, id: Id, i: nat)
    requires Clean(n) && ClaimIdx(n.rows, id) == Some(i) && i < |n.rows| && id !in n.procs
    ensures forall m :: m in n.kernel && IsNs(m) && n.kernel[m] == i ==> Get(n.payload, id) == Some(m)
  {
    hide ShortHex, NoDashes;
  }

  /** Allocating by the fast path keeps ownership single exactly when the sandbox owns no slot. */
  lemma FastReallocationIff(u: set<Id>, n: Net, id: Id, i: nat)
    requires DistinctShorts(u) && Inv(u, n) && CanStart(u, n, id) && i in n.pool && n.pool[i].Parked?
    ensures var n' := AnyExec(u, n, FastPath(id, i));
            && n' == n.(rows := n.rows[i := Some(Sandbox(id))], pool := n.pool - {i}, payload := n.payload[id := Pre(i)])
            && (SingleOwner(n'.rows) <==> Some(Sandbox(id)) !in n.rows)
  {
    hide ShortHex, NoDashes, AnyExec, BootOk, PayloadOk, KernelOk, ProcsOk;
    assert PoolOk(n);
    FastPathEnd(u, n, id, i);
    ReassignSingleIff(n.rows, i, id);
  }

  /** And what it costs a connected sandbox: its next release destroys the new namespace only, and frees both slots, so
      the old /30 is poisoned. */
  lemma FastReallocationPoisons(u: set<Id>, n: Net, id: Id, i: nat)
    requires DistinctShorts(u) && Inv(u, n) && CanStart(u, n, id) && i in n.pool && n.pool[i].Parked? && Connected(n, id)
    ensures Poisoned(AnyExec(u, AnyExec(u, n, FastPath(id, i)), Releasing(id)), n.kernel[n.payload[id]])
  {
    hide ShortHex, NoDashes, AnyExec, BootOk, PayloadOk, KernelOk, ProcsOk, Release, SingleOwner;
    var m, k := n.payload[id], n.kernel[n.payload[id]];
    FastReallocationIff(u, n, id, i);
    var t := AnyExec(u, n, FastPath(id, i));
    assert m != Pre(i) by { SlotIsNotOwn(u, n, id, i); }
    FaultyReleaseEnd(u, t, id, true, true, true);
    var e := AnyExec(u, t, Releasing(id));
    assert m in e.kernel && e.kernel[m] == k && e.rows[k].None?;
  }

  lemma SlotIsNotOwn(u: set<Id>, n: Net, id: Id, i: nat)
    requires Inv(u, n) && i in n.pool && n.pool[i].Parked? && Connected(n, id)
    ensures n.payload[id] != Pre(i)
  {
    hide ShortHex, BootOk, ProcsOk, PayloadOk, SingleOwner;
  }

  // ---- a reboot of the host ----

  /** The invariant survives a reboot of the host exactly when no sandbox in use has an adopted slot on record. */
  lemma RebootKeepsInvIff(u: set<Id>, n: Net)
    requires DistinctShorts(u) && Inv(u, n)
    ensures Inv(u, AnyStep(u, n, HostReboot)) <==> NoAdoptedRows(n)
  {
    hide ShortHex, NoDashes;
    var s := AnyStep(u, n, HostReboot);
    if !NoAdoptedRows(n) {
      var id :| id in n.payload && id !in n.retired && n.payload[id].Pre?;
      assert !Mine(s, id, s.payload[id]);
    }
  }

  // The run that shows it, on a host with one slot. Before the reboot sandbox a is on it, adopted, and b has a row and
  // nothing else.

  function BeforeReboot(a: Id, b: Id): Net {
    Net([Some(Sandbox(a))], map[Pre(0) := 0], map[a := Pre(0)], {a, b}, {}, map[], map[], Running(true))
  }

  function Boot(): seq<Event> { [BootStart, ListLive, DoReconcile] + [KeepSet, ListNs, SweepDone] }

  function RebootAndBoot(): seq<Event> { [HostReboot] + Boot() }

  function PrebuildOne(): seq<Event> { [PrebuildClaim, BuildClear(0), BuildAdd(0)] + [Park(0)] }

  lemma BeforeRebootIsSound(a: Id, b: Id)
    requires a != b && DistinctShorts({a, b})
    ensures Inv({a, b}, BeforeReboot(a, b)) && Connected(BeforeReboot(a, b), a)
  {
    hide ShortHex, NoDashes;
  }

  lemma BootHead(u: set<Id>, n: Net)
    requires n.phase.Down? && n.rows == [None] && n.payload.Keys <= n.live
    ensures AnyStep(u, AnyStep(u, AnyStep(u, n, BootStart), ListLive), DoReconcile) == n.(phase := Reconciled(n.live))
  {
    hide ShortHex, NoDashes, Lowest, ClaimIdx, Release;
    var n1 := AnyStep(u, AnyStep(u, n, BootStart), ListLive);
    assert n1 == n.(phase := Listed(n.live)) && n.retired + (n.payload.Keys - n.live) == n.retired;
    var n2 := AnyStep(u, n1, DoReconcile);
    assert n2 == n.(phase := Reconciled(n.live));
  }

  lemma BootTail(u: set<Id>, n: Net)
    requires n.phase.Reconciled? && n.kernel == map[]
    ensures AnyStep(u, AnyStep(u, AnyStep(u, n, KeepSet), ListNs), SweepDone) == n.(phase := Running(true))
  {
    hide ShortHex, NoDashes, Lowest, ClaimIdx, Release;
    var n1 := AnyStep(u, n, KeepSet);
    assert n1 == n.(phase := n1.phase);
    var n2 := AnyStep(u, n1, ListNs);
    assert n2.phase.todo == {} && n2.phase.clean && n2 == n.(phase := n2.phase);
  }

  /** A boot on a host with one free slot and no namespace. */
  lemma BootEnd(u: set<Id>, n: Net)
    requires n.phase.Down? && n.rows == [None] && n.kernel == map[] && n.payload.Keys <= n.live
    ensures AnyExec(u, n, Boot()) == n.(phase := Running(true))
  {
    hide AnyExec, AnyStep;
    ThreeMore(u, n, BootStart, ListLive, DoReconcile);
    ExecSplit(u, n, [BootStart, ListLive, DoReconcile], [KeepSet, ListNs, SweepDone]);
    BootHead(u, n);
    var n1 := n.(phase := Reconciled(n.live));
    ThreeMore(u, n1, KeepSet, ListNs, SweepDone);
    BootTail(u, n1);
  }

  lemma OneStep(u: set<Id>, n: Net, e: Event)
    ensures AnyExec(u, n, [e]) == AnyStep(u, n, e)
  {
    hide AnyStep;
    OneMore(u, n, [], e);
    assert [] + [e] == [e] && AnyExec(u, n, []) == n;
  }

  lemma BootAfterReboot(a: Id, b: Id)
    ensures var n := BeforeReboot(a, b);
            AnyExec({a, b}, n, RebootAndBoot()) == n.(rows := [None], kernel := map[])
  {
    hide ShortHex, NoDashes, AnyExec, Lowest, ClaimIdx, Release;
    var u, n := {a, b}, BeforeReboot(a, b);
    OneStep(u, n, HostReboot);
    ExecSplit(u, n, [HostReboot], Boot());
    var n1 := n.(rows := [None], kernel := map[], phase := Down);
    assert AnyStep(u, n, HostReboot) == n1;
    BootEnd(u, n1);
  }

  lemma SentinelStep(u: set<Id>, n: Net)
    requires n.phase.Running? && n.rows == [None]
    ensures AnyStep(u, n, PrebuildClaim) == n.(rows := [Some(Prebuilt(0))], pool := n.pool[0 := Claimed])
  {
    hide ShortHex, NoDashes, ClaimIdx, Release;
  }

  /** The next step of a prebuild under way. */
  lemma NextBuild(u: set<Id>, n: Net, i: nat)
    requires i in n.pool
    ensures match n.pool[i]
      case Claimed => AnyStep(u, n, BuildClear(i)) == n.(kernel := n.kernel - {Pre(i)}, pool := n.pool[i := Cleared])
      case Cleared => AnyStep(u, n, BuildAdd(i)) == n.(kernel := n.kernel[Pre(i) := i], pool := n.pool[i := Built])
      case Built => AnyStep(u, n, Park(i)) == n.(pool := n.pool[i := Parked])
      case _ => true
  {
    hide ShortHex, NoDashes, ClaimIdx, Release, Lowest;
  }

  lemma PrebuildOneEnd(u: set<Id>, n: Net)
    requires n.phase.Running? && n.rows == [None] && n.kernel.Keys <= {Pre(0)} && n.pool == map[]
    ensures AnyExec(u, n, PrebuildOne()) == n.(rows := [Some(Prebuilt(0))], kernel := map[Pre(0) := 0], pool := map[0 := Parked])
  {
    hide AnyExec, AnyStep;
    ThreeMore(u, n, PrebuildClaim, BuildClear(0), BuildAdd(0));
    OneMore(u, n, [PrebuildClaim, BuildClear(0), BuildAdd(0)], Park(0));
    SentinelStep(u, n);
    var s1 := AnyStep(u, n, PrebuildClaim);
    NextBuild(u, s1, 0);
    var s2 := AnyStep(u, s1, BuildClear(0));
    NextBuild(u, s2, 0);
    var s3 := AnyStep(u, s2, BuildAdd(0));
    NextBuild(u, s3, 0);
  }

  /** The old record outlives the reboot. Once another sandbox has adopted the slot, releasing the first one reads that
      record and destroys the other's namespace. */
  lemma StaleRowDestroysStranger(a: Id, b: Id)
    requires a != b && DistinctShorts({a, b})
    ensures var (u, n) := ({a, b}, BeforeReboot(a, b));
            var n' := AnyExec(u, n, RebootAndBoot() + PrebuildOne() + FastPath(b, 0));
            && Inv(u, n) && Connected(n', b) && Held(n', b)
            && !Connected(AnyExec(u, n', [RelBegin(a, true)] + [RelDestroy(a, true)]), b)
  {
    hide ShortHex, NoDashes, AnyExec, AnyStep, Inv;
    var u, n := {a, b}, BeforeReboot(a, b);
    BeforeRebootIsSound(a, b);
    ExecSplit(u, n, RebootAndBoot(), PrebuildOne());
    ExecSplit(u, n, RebootAndBoot() + PrebuildOne(), FastPath(b, 0));
    BootAfterReboot(a, b);
    var n1 := AnyExec(u, n, RebootAndBoot());
    PrebuildOneEnd(u, n1);
    var n2 := AnyExec(u, n1, PrebuildOne());
    FastPathEnd(u, n2, b, 0);
    var n3 := AnyExec(u, n2, FastPath(b, 0));
    assert n3.payload[a] == Pre(0) && n3.payload[b] == Pre(0);
    OneMore(u, n3, [], RelBegin(a, true));
    OneMore(u, n3, [RelBegin(a, true)], RelDestroy(a, true));
    assert AnyExec(u, n3, []) == n3 by { ExecNothing(u, n3); }
    assert [] + [RelBegin(a, true)] == [RelBegin(a, true)];
    BeginStep(u, n3, a, true);
    NextRelease(u, AnyStep(u, n3, RelBegin(a, true)), a, true);
  }

  // ---- two releases of one sandbox ----

  /** Sandbox x, not releasing and not undoing, has namespace m up on its own slot. */
  predicate Uses(n: Net, x: Id, m: NsName) {
    && Current(n, x) == Some(m) && m in n.kernel && Owns(n, x, n.kernel[m])
    && (x in n.procs ==> n.procs[x].Adopted? || n.procs[x].SlowBuilt?)
  }

  /** Pool slot i has its namespace up for whoever adopts it: just built, parked, or taken by a sandbox other than id. */
  predicate Ready(n: Net, id: Id, i: nat) {
    && i in n.pool && Pre(i) in n.kernel
    && (n.pool[i].Built? || n.pool[i].Parked? || (n.pool[i].PoppedBy? && n.pool[i].id != id))
  }

  /** Removing m takes a namespace from another sandbox, or from a pool slot. */
  ghost predicate Harms(n: Net, id: Id, m: NsName) {
    || (exists x, k :: x != id && Uses(n, x, k) && !Uses(Destroy(n, m), x, k))
    || (exists i :: Ready(n, id, i) && !Ready(Destroy(n, m), id, i))
  }

  /** The row of the /30 that namespace m stands on is that of another sandbox which is not giving it up, or of a pool
      slot that is up. */
  predicate Elsewhere(n: Net, id: Id, m: NsName) {
    && m in n.kernel && n.kernel[m] < |n.rows| && n.rows[n.kernel[m]].Some?
    && match n.rows[n.kernel[m]].value
       case Sandbox(x) => x != id && (x in n.procs ==> n.procs[x].Adopted? || n.procs[x].SlowBuilt?)
       case Prebuilt(i) => Ready(n, id, i)
  }

  lemma ElsewhereHarms(u: set<Id>, n: Net, id: Id, m: NsName)
    requires Clean(n) && IsNs(m) && Elsewhere(n, id, m)
    ensures Harms(n, id, m)
  {
    hide ShortHex, NoDashes;
    assert Accounted(n, m, n.kernel[m]);
    match n.rows[n.kernel[m]].value {
      case Sandbox(x) => assert Uses(n, x, m) && !Uses(Destroy(n, m), x, m);
      case Prebuilt(i) => assert Ready(n, id, i) && !Ready(Destroy(n, m), id, i);
    }
  }

  lemma HarmsElsewhere(n: Net, id: Id, m: NsName)
    requires KernelOk(n) && PoolOk(n) && Harms(n, id, m)
    ensures Elsewhere(n, id, m)
  {
    hide ShortHex, NoDashes;
    if x, k :| x != id && Uses(n, x, k) && !Uses(Destroy(n, m), x, k) {
      assert Current(Destroy(n, m), x) == Current(n, x);
      assert k == m;
    } else {
      var i :| Ready(n, id, i) && !Ready(Destroy(n, m), id, i);
      assert m == Pre(i) && n.kernel[m] == i;
    }
  }

  /** A release that read its row before another release of the same sandbox finished, or a rollback that freed its slot
      first, destroys what it has in mind whenever it gets there. With any other operations under way, that is harmless
      exactly as long as the slot has not changed hands; a slow-path namespace never does. */
  lemma LateDestroyHarmsIff(u: set<Id>, n: Net, id: Id, m: NsName)
    requires DistinctShorts(u) && Inv(u, n) && n.phase == Running(true)
    requires id in u && (m.Pre? || m == NsOf(id))
    ensures Harms(n, id, m) <==> Elsewhere(n, id, m)
    ensures m == NsOf(id) ==> !Harms(n, id, m)
  {
    hide ShortHex, NoDashes, ProcsOk, PayloadOk, SingleOwner, PoolOk, KernelOk, Harms, Elsewhere;
    assert Clean(n);
    if Elsewhere(n, id, m) {
      ElsewhereHarms(u, n, id, m);
    }
    if Harms(n, id, m) {
      HarmsElsewhere(n, id, m);
    }
    if m == NsOf(id) {
      OwnNameIsOwn(u, n, id);
    }
  }

  /** Nobody else uses a namespace with id's slow-path name. */
  lemma OwnNameIsOwn(u: set<Id>, n: Net, id: Id)
    requires DistinctShorts(u) && Inv(u, n) && id in u && Clean(n)
    ensures !Elsewhere(n, id, NsOf(id))
  {
    hide ShortHex, NoDashes, SingleOwner, PoolOk, KernelOk;
    var m := NsOf(id);
    if m in n.kernel && n.kernel[m] < |n.rows| && n.rows[n.kernel[m]].Some? && n.rows[n.kernel[m]].value.Sandbox? {
      var x := n.rows[n.kernel[m]].value.id;
      assert x in n.procs ==> ProcOk(u, n, x, n.procs[x]);
    }
  }

  /** And it happens: the first release ends, the slot is prebuilt again and adopted by another sandbox, and only then
      does the second release destroy the namespace it had read about. */
  lemma SecondReleaseDestroysStranger(a: Id, b: Id)
    requires a != b && DistinctShorts({a, b})
    ensures var (u, n) := ({a, b}, BeforeReboot(a, b));
            var n' := AnyExec(u, n, Releasing(a) + PrebuildOne() + FastPath(b, 0));
            && Inv(u, n) && Get(n.payload, a) == Some(Pre(0))
            && Connected(n', b) && Held(n', b) && !Connected(Destroy(n', Pre(0)), b)
  {
    hide ShortHex, NoDashes, AnyExec, AnyStep, Inv;
    var u, n := {a, b}, BeforeReboot(a, b);
    BeforeRebootIsSound(a, b);
    ExecSplit(u, n, Releasing(a), PrebuildOne());
    ExecSplit(u, n, Releasing(a) + PrebuildOne(), FastPath(b, 0));
    FaultyReleaseEnd(u, n, a, true, true, true);
    var n1 := AnyExec(u, n, Releasing(a));
    assert n1.rows == [None] && n1.kernel == map[];
    PrebuildOneEnd(u, n1);
    var n2 := AnyExec(u, n1, PrebuildOne());
    FastPathEnd(u, n2, b, 0);
    var n3 := AnyExec(u, n2, FastPath(b, 0));
    assert n3.payload == map[b := Pre(0)];
  }

  lemma ExecNothing(u: set<Id>, n: Net)
    ensures AnyExec(u, n, []) == n
  {
  }

  lemma {:induction false} ExecSplit(u: set<Id>, n: Net, xs: seq<Event>, ys: seq<Event>)
    ensures AnyExec(u, n, xs + ys) == AnyExec(u, AnyExec(u, n, xs), ys)
  {
    if ys == [] {
      assert xs + ys == xs;
    } else {
      hide AnyStep;
      var k := |ys| - 1;
      ExecSplit(u, n, xs, ys[..k]);
      OneMore(u, n, xs + ys[..k], ys[k]);
      OneMore(u, AnyExec(u, n, xs), ys[..k], ys[k]);
      assert xs + ys == xs + ys[..k] + [ys[k]] && ys == ys[..k] + [ys[k]];
    }
  }
}
