/** What the network layer's guarantees are worth when a payload read, a payload delete, a removal of a namespace or a
    ledger write fails (network/natid.go looks at none of them before it frees the slot). */
module NetFaults {
  import opened Bytes
  import opened SlotStores
  import opened NetMachine
  import opened NetSafety
  import NetSteps

  // ---- without such faults nothing more is needed ----

  /** The payload read, the payload delete or the removal this event is about works. Ledger writes may fail. */
  predicate Works(e: Event) {
    match e
    case BuildFail(_, ok) => ok
    case SlowFail(_, ok) => ok
    case RelBegin(_, ok) => ok
    case RelDestroy(_, ok) => ok
    case RelDelete(_, ok) => ok
    case _ => true
  }

  /** What half-done operations leave behind if everything worked so far. */
  ghost predicate Tidy(n: Net) {
    && (forall i :: i in n.pool && n.pool[i].Broken? ==> Pre(i) !in n.kernel)
    && (forall id :: id in n.procs ==>
          match n.procs[id]
          case SlowBroken(_) => NsOf(id) !in n.kernel
          case RelRead(name, left) => name == left
          case RelDestroyed(left) => left.None?
          case RelDeleted(left) => left.None? && id !in n.payload
          case _ => true)
  }

  lemma TidyKept(u: set<Id>, n: Net, e: Event)
    requires DistinctShorts(u) && Inv(u, n) && Tidy(n) && Enabled(u, n, e) && Works(e)
    ensures Tidy(Apply(u, n, e))
  {
    hide Inv, Enabled, Apply, Tidy, Works, DistinctShorts;
    if NetSteps.Boots(e) || e.PrebuildClaim? || e.BuildAbort? || NetSteps.Builds(e) {
      TidyKeptPool(u, n, e);
    } else if NetSteps.Adopts(e) || e.SlowClaim? {
      TidyKeptTake(u, n, e);
    } else if e.SlowAdd? {
      TidyKeptAdd(u, n, e);
    } else if NetSteps.Slows(e) || NetSteps.Undoes(e) {
      TidyKeptSlow(u, n, e);
    } else if e.RelBegin? || e.RelDestroy? {
      TidyKeptBegin(u, n, e);
    } else {
      TidyKeptFree(u, n, e);
    }
  }

  lemma TidyKeptPool(u: set<Id>, n: Net, e: Event)
    requires Tidy(n) && Enabled(u, n, e) && Works(e)
    requires NetSteps.Boots(e) || e.PrebuildClaim? || e.BuildAbort? || NetSteps.Builds(e)
    ensures Tidy(Apply(u, n, e))
  {
    hide ShortHex, NoDashes, Lowest, Release, Reconcile, Careful;
  }

  lemma TidyKeptTake(u: set<Id>, n: Net, e: Event)
    requires Tidy(n) && Enabled(u, n, e) && Works(e)
    requires NetSteps.Adopts(e) || e.SlowClaim?
    ensures Tidy(Apply(u, n, e))
  {
    hide ShortHex, NoDashes, Lowest, Release, ClaimIdx, Reconcile, Careful;
  }

  lemma TidyKeptAdd(u: set<Id>, n: Net, e: Event)
    requires DistinctShorts(u) && Inv(u, n) && Tidy(n) && Enabled(u, n, e) && e.SlowAdd?
    ensures Tidy(Apply(u, n, e))
  {
    hide ShortHex, NoDashes, Lowest, Release, ClaimIdx, Reconcile, Careful, SingleOwner, KernelOk, BootOk, PayloadOk, PoolOk;
    assert forall x :: x in n.procs ==> x in u;
    assert forall x :: x in n.procs && x != e.id ==> ShortHex(x) != ShortHex(e.id);
    hide Inv, ProcsOk, DistinctShorts;
  }

  lemma TidyKeptSlow(u: set<Id>, n: Net, e: Event)
    requires Tidy(n) && Enabled(u, n, e) && Works(e)
    requires e.SlowClear? || e.SlowSave? || NetSteps.Undoes(e)
    ensures Tidy(Apply(u, n, e))
  {
    hide ShortHex, NoDashes, Lowest, Release, ClaimIdx, Reconcile, Careful;
  }

  lemma TidyKeptBegin(u: set<Id>, n: Net, e: Event)
    requires Tidy(n) && Enabled(u, n, e) && Works(e)
    requires e.RelBegin? || e.RelDestroy?
    ensures Tidy(Apply(u, n, e))
  {
    hide ShortHex, NoDashes, Lowest, Release, Reconcile, Careful;
  }

  lemma TidyKeptFree(u: set<Id>, n: Net, e: Event)
    requires Tidy(n) && Enabled(u, n, e) && Works(e)
    requires NetSteps.Frees(e)
    ensures Tidy(Apply(u, n, e))
  {
    hide ShortHex, NoDashes, Lowest, Release, Reconcile, Careful;
  }

  lemma {:induction false} RunsStayTidy(u: set<Id>, capacity: nat, es: seq<Event>)
    requires DistinctShorts(u) && forall k :: 0 <= k < |es| ==> Works(es[k])
    ensures Tidy(Exec(u, NewHost(capacity), es))
  {
    if es == [] {
    } else {
      hide Inv, Enabled, Apply, DistinctShorts, Tidy, Works;
      RunsStayTidy(u, capacity, es[..|es| - 1]);
      RunsKeepInv(u, capacity, es[..|es| - 1]);
      var n := Exec(u, NewHost(capacity), es[..|es| - 1]);
      if Enabled(u, n, es[|es| - 1]) {
        TidyKept(u, n, es[|es| - 1]);
      }
    }
  }

  /** In a run in which these work, wherever it crashes, every slot is handed over clean: all that is asked is the
      callers' care. */
  lemma FaultlessIsCareful(u: set<Id>, capacity: nat, es: seq<Event>, e: Event)
    requires DistinctShorts(u) && forall k :: 0 <= k < |es| ==> Works(es[k])
    ensures var n := Exec(u, NewHost(capacity), es);
            Possible(u, n, e) && CallersCareful(n, e) ==> Enabled(u, n, e)
  {
    hide Exec, Inv, DistinctShorts, CallersCareful, Works, ShortHex, NoDashes;
    RunsStayTidy(u, capacity, es);
  }

  /** The callers' care, at every step of a run. */
  ghost predicate CallersCarefulRun(u: set<Id>, n: Net, es: seq<Event>) {
    forall k :: 0 <= k < |es| ==> CallersCareful(AnyExec(u, n, es[..k]), es[k])
  }

  lemma {:induction false} FaultlessRun(u: set<Id>, capacity: nat, es: seq<Event>)
    requires DistinctShorts(u) && (forall k :: 0 <= k < |es| ==> Works(es[k])) && CallersCarefulRun(u, NewHost(capacity), es)
    ensures AnyExec(u, NewHost(capacity), es) == Exec(u, NewHost(capacity), es)
  {
    if es != [] {
      hide DistinctShorts, CallersCareful, Works, Apply, Possible, HandsOverClean;
      var k, n := |es| - 1, NewHost(capacity);
      assert forall j :: 0 <= j < k ==> es[..k][j] == es[j] && es[..k][..j] == es[..j];
      FaultlessRun(u, capacity, es[..k]);
      FaultlessIsCareful(u, capacity, es[..k], es[k]);
    }
  }

  /** In such a run nothing is ever poisoned: whatever crashed where, and whatever ledger writes failed, once a boot's sweep
      is over every free index is without a namespace and no /30 has two. */
  lemma FaultlessRunsAreClean(u: set<Id>, capacity: nat, es: seq<Event>, i: nat)
    requires DistinctShorts(u) && (forall k :: 0 <= k < |es| ==> Works(es[k])) && CallersCarefulRun(u, NewHost(capacity), es)
    ensures var n := AnyExec(u, NewHost(capacity), es);
            Inv(u, n) && (n.phase == Running(true) ==> !Poisoned(n, i) && !Ambiguous(n, i))
  {
    hide DistinctShorts, CallersCarefulRun, Works, Inv, AnyExec, Exec, Poisoned, Ambiguous;
    FaultlessRun(u, capacity, es);
    RunsKeepInv(u, capacity, es);
    NoPoisonedSlot(u, capacity, es, i);
  }

  // ---- handing over a slot ----

  /** Namespace m stands on a slot whose owner does not account for it. */
  ghost predicate Stray(n: Net, m: NsName) { m in n.kernel && IsNs(m) && !Accounted(n, m, n.kernel[m]) }

  lemma StrayBreaks(u: set<Id>, n: Net, m: NsName)
    requires Stray(n, m) && n.phase == Running(true)
    ensures !Inv(u, n)
  {
    hide Accounted;
    assert !Clean(n);
  }

  lemma HandOverKept(u: set<Id>, n: Net, e: Event)
    requires DistinctShorts(u) && Inv(u, n) && Possible(u, n, e) && CallersCareful(n, e) && HandsOverClean(n, e)
    ensures Inv(u, AnyStep(u, n, e)) && AnyStep(u, n, e) == Step(u, n, e)
  {
    hide Inv, Possible, CallersCareful, HandsOverClean, Apply, DistinctShorts;
    StepKeepsInv(u, n, e);
  }

  lemma OwnProc(u: set<Id>, n: Net, id: Id)
    requires Inv(u, n) && id in n.procs
    ensures ProcOk(u, n, id, n.procs[id])
  {
    hide ShortHex, NoDashes, SingleOwner, KernelOk, BootOk, PayloadOk, PoolOk;
  }

  lemma DirtyPrebuild(u: set<Id>, n: Net, i: nat, ok: bool)
    requires Inv(u, n) && Possible(u, n, BuildAbort(i, ok)) && !HandsOverClean(n, BuildAbort(i, ok))
    ensures var s := AnyStep(u, n, BuildAbort(i, ok)); ok && Poisoned(s, i) && Stray(s, Pre(i))
  {
    hide ShortHex, NoDashes, PayloadOk, ProcsOk, SingleOwner, BootOk;
    var s := AnyStep(u, n, BuildAbort(i, ok));
    assert Pre(i) in s.kernel && s.kernel[Pre(i)] == i && s.rows[i].None?;
  }

  lemma DirtySlow(u: set<Id>, n: Net, id: Id, ok: bool)
    requires DistinctShorts(u) && Inv(u, n) && n.phase == Running(true)
    requires Possible(u, n, SlowAbort(id, ok)) && !HandsOverClean(n, SlowAbort(id, ok))
    ensures var s := AnyStep(u, n, SlowAbort(id, ok));
            && Stray(s, NsOf(id)) && s.kernel == n.kernel && Owns(n, id, n.kernel[NsOf(id)])
            && (ok ==> Poisoned(s, n.kernel[NsOf(id)]))
  {
    hide ShortHex, NoDashes, PoolOk, SingleOwner;
    var s, m := AnyStep(u, n, SlowAbort(id, ok)), NsOf(id);
    OwnProc(u, n, id);
    assert Accounted(n, m, n.kernel[m]) && id !in n.payload;
    OnlyOwnName(u, n, id, n.kernel[m]);
    assert m in s.kernel && Current(s, id).None?;
  }

  /** The slot that accounts for id's slow-path namespace is id's. */
  lemma OnlyOwnName(u: set<Id>, n: Net, id: Id, i: nat)
    requires DistinctShorts(u) && Inv(u, n) && id in n.procs && Accounted(n, NsOf(id), i)
    ensures Owns(n, id, i)
  {
    hide ShortHex, NoDashes, SingleOwner, PoolOk, KernelOk;
  }

  lemma DirtyRelease(u: set<Id>, n: Net, id: Id, ok: bool)
    requires Inv(u, n) && n.phase == Running(true) && Possible(u, n, RelFree(id, ok)) && !HandsOverClean(n, RelFree(id, ok))
    ensures !Inv(u, AnyStep(u, n, RelFree(id, ok)))
  {
    hide ShortHex, NoDashes, PoolOk, SingleOwner, KernelOk;
    var s, left := AnyStep(u, n, RelFree(id, ok)), n.procs[id].left;
    OwnProc(u, n, id);
    if left.Some? && left.value in n.kernel && (ok || Get(n.payload, id) != left) {
      assert Owns(n, id, n.kernel[left.value]);
      assert !Accounted(s, left.value, s.kernel[left.value]) && !Clean(s);
    } else {
      assert ok && id in s.payload && id !in s.retired && s.payload[id].Pre?;
      assert !Owns(s, id, s.payload[id].idx) && !PayloadOk(u, s);
    }
  }

  /** With any other operations under way, the three ways to give up a slot keep the invariant exactly when the slot is
      handed over clean. */
  lemma HandOverIff(u: set<Id>, n: Net, e: Event)
    requires DistinctShorts(u) && Inv(u, n) && n.phase == Running(true) && Possible(u, n, e)
    requires e.BuildAbort? || e.SlowAbort? || e.RelFree?
    ensures Inv(u, AnyStep(u, n, e)) <==> HandsOverClean(n, e)
  {
    hide Inv, Possible, DistinctShorts, HandsOverClean, Stray;
    assert AnyStep(u, n, e).phase == n.phase;
    hide AnyStep;
    if HandsOverClean(n, e) {
      HandOverKept(u, n, e);
    } else {
      match e
      case BuildAbort(i, ok) =>
        DirtyPrebuild(u, n, i, ok);
        StrayBreaks(u, AnyStep(u, n, e), Pre(i));
      case SlowAbort(id, ok) =>
        DirtySlow(u, n, id, ok);
        StrayBreaks(u, AnyStep(u, n, e), NsOf(id));
      case RelFree(id, ok) => DirtyRelease(u, n, id, ok);
    }
  }

  // ---- a release in which something fails ----

  lemma ConnectedIff(u: set<Id>, n: Net, id: Id)
    requires Inv(u, n) && id !in n.retired
    ensures Connected(n, id) <==> id in n.payload && n.payload[id] in n.kernel
    ensures Connected(n, id) ==> !n.payload[id].Other?
  {
    hide ShortHex, NoDashes, PoolOk, SingleOwner, KernelOk, ProcsOk, BootOk;
  }

  lemma ReleaseKept(u: set<Id>, n: Net, id: Id, ok: bool)
    requires DistinctShorts(u) && Inv(u, n)
    ensures CanStart(u, n, id) ==> Inv(u, AnyStep(u, n, RelBegin(id, ok)))
    ensures id in n.procs && n.procs[id].RelRead? ==> Inv(u, AnyStep(u, n, RelDestroy(id, ok)))
    ensures id in n.procs && n.procs[id].RelDestroyed? ==> Inv(u, AnyStep(u, n, RelDelete(id, ok)))
  {
    hide Inv, AnyStep, DistinctShorts;
    if CanStart(u, n, id) {
      HandOverKept(u, n, RelBegin(id, ok));
    } else if id in n.procs && n.procs[id].RelRead? {
      HandOverKept(u, n, RelDestroy(id, ok));
    } else if id in n.procs && n.procs[id].RelDestroyed? {
      HandOverKept(u, n, RelDelete(id, ok));
    }
  }

  /** What the three steps before the free make of a sound state, and whether the free is clean then. */
  lemma BeforeFree(u: set<Id>, n: Net, id: Id, read: bool, gone: bool, deleted: bool)
    requires DistinctShorts(u) && Inv(u, n) && n.phase == Running(true) && CanStart(u, n, id)
    ensures var s := AnyExec(u, n, [RelBegin(id, read), RelDestroy(id, gone), RelDelete(id, deleted)]);
            && Inv(u, s) && s.phase == n.phase && Possible(u, s, RelFree(id, true))
            && (HandsOverClean(s, RelFree(id, true)) <==>
                  (Connected(n, id) ==> read && gone) && (id in n.payload && n.payload[id].Pre? ==> deleted))
  {
    ConnectedIff(u, n, id);
    hide ShortHex, NoDashes, AnyStep, AnyExec, Inv, DistinctShorts, Connected, Possible, HandsOverClean;
    ThreeMore(u, n, RelBegin(id, read), RelDestroy(id, gone), RelDelete(id, deleted));
    BeginStep(u, n, id, read);
    var s1 := AnyStep(u, n, RelBegin(id, read));
    ReleaseKept(u, n, id, read);
    NextRelease(u, s1, id, gone);
    ReleaseKept(u, s1, id, gone);
    var s2 := AnyStep(u, s1, RelDestroy(id, gone));
    NextRelease(u, s2, id, deleted);
    ReleaseKept(u, s2, id, deleted);
    var s3 := AnyStep(u, s2, RelDelete(id, deleted));
    FreeIsClean(u, s3, id);
  }

  lemma FreeIsClean(u: set<Id>, n: Net, id: Id)
    requires id in n.procs && n.procs[id].RelDeleted?
    ensures Possible(u, n, RelFree(id, true))
    ensures HandsOverClean(n, RelFree(id, true)) <==>
              (n.procs[id].left.Some? ==> n.procs[id].left.value !in n.kernel) && (id in n.payload ==> !n.payload[id].Pre?)
  {
  }

  /** A release frees the slot whatever failed before. Its /30 is left free with a namespace on it exactly when the sandbox
      was connected and the payload read or the removal failed; the invariant is lost exactly then, or when the record of
      an adopted slot was not deleted. */
  lemma FaultyReleaseIff(u: set<Id>, n: Net, id: Id, i: nat, read: bool, gone: bool, deleted: bool)
    requires DistinctShorts(u) && Inv(u, n) && n.phase == Running(true) && CanStart(u, n, id)
    ensures var n' := AnyExec(u, n, FaultyRelease(id, read, gone, deleted));
            && (Owns(n, id, i) ==> (Poisoned(n', i) <==> Connected(n, id) && !(read && gone)))
            && (Inv(u, n') <==>
                  (Connected(n, id) ==> read && gone) && (id in n.payload && n.payload[id].Pre? ==> deleted))
  {
    hide ShortHex, NoDashes, AnyStep, AnyExec, Inv, DistinctShorts, Connected, Possible, HandsOverClean, CanStart;
    BeforeFree(u, n, id, read, gone, deleted);
    var es := [RelBegin(id, read), RelDestroy(id, gone), RelDelete(id, deleted)];
    OneMore(u, n, es, RelFree(id, true));
    HandOverIff(u, AnyExec(u, n, es), RelFree(id, true));
    if Owns(n, id, i) {
      FaultyReleasePoisons(u, n, id, i, read, gone, deleted);
    }
  }

  lemma FaultyReleasePoisons(u: set<Id>, n: Net, id: Id, i: nat, read: bool, gone: bool, deleted: bool)
    requires Inv(u, n) && n.phase == Running(true) && CanStart(u, n, id) && Owns(n, id, i)
    ensures Poisoned(AnyExec(u, n, FaultyRelease(id, read, gone, deleted)), i) <==> Connected(n, id) && !(read && gone)
  {
    hide ShortHex, NoDashes, AnyExec, ProcsOk, PoolOk, KernelOk;
    FaultyReleaseEnd(u, n, id, read, gone, deleted);
    assert Clean(n) && SingleOwner(n.rows);
    if Connected(n, id) {
      assert n.kernel[n.payload[id]] == i;
    }
    assert forall m :: m in n.kernel && IsNs(m) && n.kernel[m] == i ==> Get(n.payload, id) == Some(m);
  }

  // ---- undoing a build, and rolling back an adoption ----

  /** A failed prebuild frees its slot whether or not its namespace could be removed. */
  lemma UndoPrebuildIff(u: set<Id>, n: Net, i: nat, gone: bool)
    requires DistinctShorts(u) && Inv(u, n) && n.phase == Running(true) && Possible(u, n, BuildFail(i, gone))
    ensures var n' := AnyStep(u, AnyStep(u, n, BuildFail(i, gone)), BuildAbort(i, true));
            && (Poisoned(n', i) <==> Pre(i) in n.kernel && !gone)
            && (Inv(u, n') <==> (Pre(i) in n.kernel ==> gone))
  {
    hide ShortHex, NoDashes, Inv, DistinctShorts;
    HandOverKept(u, n, BuildFail(i, gone));
    var s := AnyStep(u, n, BuildFail(i, gone));
    HandOverIff(u, s, BuildAbort(i, true));
    if Pre(i) in s.kernel {
      DirtyPrebuild(u, s, i, true);
    } else {
      CleanIsNotPoisoned(u, AnyStep(u, s, BuildAbort(i, true)), i);
    }
  }

  lemma CleanIsNotPoisoned(u: set<Id>, n: Net, i: nat)
    requires Inv(u, n) && n.phase == Running(true)
    ensures !Poisoned(n, i)
  {
    hide ShortHex, ProcsOk, PoolOk, PayloadOk, KernelOk, SingleOwner;
    assert Clean(n);
  }

  /** And so does a failed slow build; if the ledger fails too, the slot stays owned, but the namespace is lost sight of. */
  lemma UndoSlowIff(u: set<Id>, n: Net, id: Id, i: nat, gone: bool, freed: bool)
    requires DistinctShorts(u) && Inv(u, n) && n.phase == Running(true) && Possible(u, n, SlowFail(id, gone))
    requires Owns(n, id, i)
    ensures var n' := AnyStep(u, AnyStep(u, n, SlowFail(id, gone)), SlowAbort(id, freed));
            && (Poisoned(n', i) <==> NsOf(id) in n.kernel && !gone && freed)
            && (Inv(u, n') <==> (NsOf(id) in n.kernel ==> gone))
  {
    hide ShortHex, NoDashes, Inv, DistinctShorts;
    HandOverKept(u, n, SlowFail(id, gone));
    var s := AnyStep(u, n, SlowFail(id, gone));
    HandOverIff(u, s, SlowAbort(id, freed));
    if NsOf(id) in s.kernel {
      DirtySlow(u, s, id, freed);
      Single(u, n, id, i, s.kernel[NsOf(id)]);
    } else {
      CleanIsNotPoisoned(u, AnyStep(u, s, SlowAbort(id, freed)), i);
    }
  }

  lemma Single(u: set<Id>, n: Net, id: Id, i: nat, j: nat)
    requires Inv(u, n) && Owns(n, id, i) && Owns(n, id, j)
    ensures i == j
  {
  }

  /** SaveAllocation failed after the adoption: the ledger's release and the removal, either of which may fail too. */
  function RolledBack(n: Net, id: Id, freed: bool, gone: bool): Net
    requires id in n.procs && n.procs[id].Adopted?
  {
    var t := if freed then RollbackFree(n, id) else EndProc(n, id);
    Remove(t, Pre(n.procs[id].idx), gone)
  }

  lemma RolledBackLedger(u: set<Id>, n: Net, id: Id, freed: bool, gone: bool)
    requires Inv(u, n) && id in n.procs && n.procs[id].Adopted?
    ensures var s := RolledBack(n, id, freed, gone); SingleOwner(s.rows) && KernelOk(s) && PoolOk(s) && PayloadOk(u, s)
  {
    hide ShortHex, NoDashes, Release, BootOk;
    OwnProc(u, n, id);
  }

  lemma RolledBackProc(u: set<Id>, n: Net, id: Id, freed: bool, gone: bool, x: Id)
    requires id in n.procs && n.procs[id].Adopted? && ProcOk(u, n, id, n.procs[id])
    requires x in n.procs && x != id && ProcOk(u, n, x, n.procs[x])
    ensures ProcOk(u, RolledBack(n, id, freed, gone), x, n.procs[x])
  {
    hide ShortHex, NoDashes, Release;
  }

  lemma RolledBackProcs(u: set<Id>, n: Net, id: Id, freed: bool, gone: bool)
    requires Inv(u, n) && id in n.procs && n.procs[id].Adopted?
    ensures ProcsOk(u, RolledBack(n, id, freed, gone))
  {
    hide Inv, ProcOk, Release;
    OwnProc(u, n, id);
    forall x | x in n.procs && x != id ensures ProcOk(u, RolledBack(n, id, freed, gone), x, n.procs[x]) {
      OwnProc(u, n, x);
      RolledBackProc(u, n, id, freed, gone, x);
    }
  }

  lemma RolledBackPhase(u: set<Id>, n: Net, id: Id, freed: bool)
    requires Inv(u, n) && n.phase.Running? && id in n.procs && n.procs[id].Adopted?
    ensures BootOk(RolledBack(n, id, freed, true))
  {
    hide ShortHex, NoDashes, Release, PoolOk, PayloadOk;
    OwnProc(u, n, id);
  }

  lemma RolledBackInv(u: set<Id>, n: Net, id: Id, freed: bool)
    requires DistinctShorts(u) && Inv(u, n) && n.phase.Running? && id in n.procs && n.procs[id].Adopted?
    ensures Inv(u, RolledBack(n, id, freed, true))
  {
    RolledBackLedger(u, n, id, freed, true);
    RolledBackProcs(u, n, id, freed, true);
    RolledBackPhase(u, n, id, freed);
    hide RolledBack, KernelOk, PoolOk, PayloadOk, ProcsOk, BootOk, SingleOwner;
  }

  lemma RolledBackStray(u: set<Id>, n: Net, id: Id, freed: bool)
    requires Inv(u, n) && id in n.procs && n.procs[id].Adopted?
    ensures var (s, i) := (RolledBack(n, id, freed, false), n.procs[id].idx);
            Stray(s, Pre(i)) && s.kernel[Pre(i)] == i && (Poisoned(s, i) <==> freed)
  {
    hide ShortHex, NoDashes, Release, PayloadOk, BootOk, SingleOwner;
    OwnProc(u, n, id);
    var s, i := RolledBack(n, id, freed, false), n.procs[id].idx;
    assert Pre(i) in s.kernel && s.kernel[Pre(i)] == i;
  }

  /** Uninterrupted, the rollback ends in a sound state exactly when the namespace could be removed; it leaves the slot free
      with the namespace on it exactly when only the ledger's half worked. */
  lemma RollbackIff(u: set<Id>, n: Net, id: Id, freed: bool, gone: bool)
    requires DistinctShorts(u) && Inv(u, n) && n.phase == Running(true) && id in n.procs && n.procs[id].Adopted?
    ensures var s := RolledBack(n, id, freed, gone);
            (Inv(u, s) <==> gone) && (Poisoned(s, n.procs[id].idx) <==> freed && !gone)
  {
    var s, i := RolledBack(n, id, freed, gone), n.procs[id].idx;
    assert s.phase == n.phase;
    hide Inv, RolledBack, DistinctShorts, Poisoned, Stray;
    if gone {
      RolledBackInv(u, n, id, freed);
      CleanIsNotPoisoned(u, s, i);
    } else {
      RolledBackStray(u, n, id, freed);
      StrayBreaks(u, s, Pre(i));
    }
  }

  // ---- the runs that show it ----

  /** The host of NetSafety.BeforeReboot comes about. */
  function Arrivals(a: Id, b: Id): seq<Event> {
    Boot() + ([InsertRow(a)] + [InsertRow(b)]) + PrebuildOne() + FastPath(a, 0)
  }

  lemma BeforeRebootIsReached(a: Id, b: Id)
    requires a != b
    ensures AnyExec({a, b}, NewHost(1), Arrivals(a, b)) == BeforeReboot(a, b)
  {
    hide ShortHex, NoDashes, AnyExec, AnyStep;
    var u, n := {a, b}, NewHost(1);
    assert n.rows == [None];
    var rows := [InsertRow(a)] + [InsertRow(b)];
    ExecSplit(u, n, Boot(), rows);
    ExecSplit(u, n, Boot() + rows, PrebuildOne());
    ExecSplit(u, n, Boot() + rows + PrebuildOne(), FastPath(a, 0));
    BootEnd(u, n);
    var n1 := n.(phase := Running(true));
    TwoRows(u, n1, a, b);
    var n2 := n1.(live := {a, b});
    PrebuildOneEnd(u, n2);
    FastPathEnd(u, AnyExec(u, n2, PrebuildOne()), a, 0);
  }

  lemma TwoRows(u: set<Id>, n: Net, a: Id, b: Id)
    requires n.phase.Running? && a in u && b in u && n.retired == {} && n.live == {}
    ensures AnyExec(u, n, [InsertRow(a)] + [InsertRow(b)]) == n.(live := {a, b})
  {
    hide ShortHex, NoDashes, AnyExec;
    OneStep(u, n, InsertRow(a));
    OneMore(u, n, [InsertRow(a)], InsertRow(b));
  }

  /** The payload store fails once while a is released: its slot is free with its namespace up, and when b builds its own
      there, two namespaces answer on one /30. */
  lemma FailedReadPoisons(a: Id, b: Id)
    requires a != b && DistinctShorts({a, b})
    ensures var u := {a, b};
            var n := AnyExec(u, NewHost(1), Arrivals(a, b));
            var n' := AnyExec(u, n, FaultyRelease(a, false, true, true));
            && Inv(u, n) && Connected(n, a)
            && Poisoned(n', 0) && Ambiguous(AnyExec(u, n', SlowPath(b)), 0)
  {
    hide ShortHex, NoDashes, AnyExec, AnyStep, Inv;
    var u := {a, b};
    BeforeRebootIsReached(a, b);
    BeforeRebootIsSound(a, b);
    var n := BeforeReboot(a, b);
    FaultyReleaseEnd(u, n, a, false, true, true);
    var n1 := AnyExec(u, n, FaultyRelease(a, false, true, true));
    assert n1.rows == [None] && n1.kernel == map[Pre(0) := 0];
    SlowPathEnd(u, n1, b, 0);
    var n2 := AnyExec(u, n1, SlowPath(b));
    assert Pre(0) in n2.kernel && NsOf(b) in n2.kernel && n2.kernel[Pre(0)] == n2.kernel[NsOf(b)] == 0;
  }

  /** The payload delete fails once while a is released, and the release is repeated: by then b has adopted the slot, and
      it is b's namespace that goes. */
  lemma FailedDeleteDestroysStranger(a: Id, b: Id)
    requires a != b && DistinctShorts({a, b})
    ensures var u := {a, b};
            var n := AnyExec(u, NewHost(1), Arrivals(a, b));
            var n' := AnyExec(u, n, FaultyRelease(a, true, true, false) + PrebuildOne() + FastPath(b, 0));
            && Inv(u, n) && Connected(n, a)
            && Connected(n', b) && Held(n', b) && !Connected(AnyExec(u, n', Releasing(a)), b)
  {
    hide ShortHex, NoDashes, AnyExec, AnyStep, Inv;
    var u := {a, b};
    BeforeRebootIsReached(a, b);
    BeforeRebootIsSound(a, b);
    var n, rel := BeforeReboot(a, b), FaultyRelease(a, true, true, false);
    ExecSplit(u, n, rel, PrebuildOne());
    ExecSplit(u, n, rel + PrebuildOne(), FastPath(b, 0));
    FaultyReleaseEnd(u, n, a, true, true, false);
    var n1 := AnyExec(u, n, rel);
    assert n1.rows == [None] && n1.kernel == map[];
    PrebuildOneEnd(u, n1);
    var n2 := AnyExec(u, n1, PrebuildOne());
    FastPathEnd(u, n2, b, 0);
    var n3 := AnyExec(u, n2, FastPath(b, 0));
    assert n3.payload[a] == Pre(0) && n3.payload[b] == Pre(0);
    FaultyReleaseEnd(u, n3, a, true, true, true);
  }

  /** The second step of a rollback comes late: the prewarmer has taken the freed slot and b has adopted it. */
  lemma LateRollbackDestroysStranger(a: Id, b: Id)
    requires a != b && DistinctShorts({a, b})
    ensures var u := {a, b};
            var n := BeforeReboot(a, b).(payload := map[], procs := map[a := Adopted(0)]);
            var n' := AnyExec(u, RollbackFree(n, a), PrebuildOne() + FastPath(b, 0));
            && Inv(u, n) && Inv(u, n') && Connected(n', b) && Harms(n', a, Pre(0)) && !Connected(Destroy(n', Pre(0)), b)
  {
    hide ShortHex, NoDashes, AnyExec, AnyStep;
    var u := {a, b};
    var n := BeforeReboot(a, b).(payload := map[], procs := map[a := Adopted(0)]);
    var n1 := RollbackFree(n, a);
    assert n1.rows == [None] && n1.procs == map[];
    ExecSplit(u, n1, PrebuildOne(), FastPath(b, 0));
    PrebuildOneEnd(u, n1);
    var n2 := AnyExec(u, n1, PrebuildOne());
    FastPathEnd(u, n2, b, 0);
    var n3 := AnyExec(u, n2, FastPath(b, 0));
    assert n3 == BeforeReboot(b, a);
    assert Uses(n3, b, Pre(0)) && !Uses(Destroy(n3, Pre(0)), b, Pre(0));
  }
}
