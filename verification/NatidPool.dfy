/** The NATID pool as running code: prebuild, allocate and release, with other goroutines' steps of NetMachine between
    any two store or kernel operations, and with payload reads and deletes, ledger writes and removals of namespaces that
    may fail (network/natid.go). Outside records each of these calls and how it went. */
module NatidPools {
  import opened Bytes
  import opened SlotStores
  import opened NetMachine
  import opened NetSafety
  import opened NetFaults

  /** Steps of other goroutines of a running agent: not on sandbox `me`, not on the slot `mine` being built. */
  predicate Foreign(e: Event, me: Option<Id>, mine: Option<nat>) {
    match e
    case InsertRow(id) => me != Some(id)
    case DeleteRow(id) => me != Some(id)
    case PrebuildClaim => true
    case BuildClear(i) => mine != Some(i)
    case BuildAdd(i) => mine != Some(i)
    case BuildFail(i, _) => mine != Some(i)
    case BuildAbort(i, _) => mine != Some(i)
    case Park(i) => mine != Some(i)
    case Pop(id, _) => me != Some(id)
    case Adopt(id, _, _) => me != Some(id)
    case SaveFast(id) => me != Some(id)
    case SlowClaim(id) => me != Some(id)
    case SlowClear(id) => me != Some(id)
    case SlowAdd(id) => me != Some(id)
    case SlowFail(id, _) => me != Some(id)
    case SlowAbort(id, _) => me != Some(id)
    case SlowSave(id) => me != Some(id)
    case RelBegin(id, _) => me != Some(id)
    case RelDestroy(id, _) => me != Some(id)
    case RelDelete(id, _) => me != Some(id)
    case RelFree(id, _) => me != Some(id)
    case _ => false
  }

  /** Sandbox x's own state: its place in allocate or release, its payload row, and that it holds nothing. */
  ghost predicate SameSandbox(n: Net, n': Net, x: Id) {
    && (x in n'.procs <==> x in n.procs) && (x in n.procs ==> n'.procs[x] == n.procs[x])
    && Get(n'.payload, x) == Get(n.payload, x)
    && (HoldsNothing(n, x) ==> HoldsNothing(n', x))
  }

  predicate Building(n: Net, i: nat) { i in n.pool && !n.pool[i].Parked? && !n.pool[i].PoppedBy? }

  /** What a goroutine may rely on while others run. */
  ghost predicate Later(n: Net, n': Net, me: Option<Id>, mine: Option<nat>) {
    && n.phase.Running? && n'.phase.Running? && n'.retired == n.retired && |n'.rows| == |n.rows|
    && (me.Some? ==> SameSandbox(n, n', me.value))
    && (mine.Some? && Building(n, mine.value) ==> Building(n', mine.value) && n'.pool[mine.value] == n.pool[mine.value])
  }

  lemma LaterRefl(n: Net, me: Option<Id>, mine: Option<nat>)
    requires n.phase.Running?
    ensures Later(n, n, me, mine)
  {
  }

  lemma LaterTrans(a: Net, b: Net, c: Net, me: Option<Id>, mine: Option<nat>)
    requires Later(a, b, me, mine) && Later(b, c, me, mine)
    ensures Later(a, c, me, mine)
  {
    hide HoldsNothing, Get;
  }

  lemma ForeignShape(u: set<Id>, n: Net, e: Event, me: Option<Id>, mine: Option<nat>)
    requires n.phase.Running? && Foreign(e, me, mine) && Enabled(u, n, e)
    ensures var n' := Apply(u, n, e); n'.phase.Running? && n'.retired == n.retired && |n'.rows| == |n.rows|
  {
    hide ShortHex, NoDashes, ClaimIdx, Release, Careful;
    if e.PrebuildClaim? {
      assert n.rows[Lowest(n.rows, None, 0)].None?;
    }
    if e.SlowClaim? {
      ClaimInRange(n.rows, e.id);
    }
  }

  lemma ForeignSlot(u: set<Id>, n: Net, e: Event, me: Option<Id>, i: nat)
    requires n.phase.Running? && Foreign(e, me, Some(i)) && Enabled(u, n, e) && PoolOk(n) && ProcsOk(u, n) && Building(n, i)
    ensures var n' := Apply(u, n, e); Building(n', i) && n'.pool[i] == n.pool[i]
  {
    hide ShortHex, NoDashes, ClaimIdx, Release, Careful, PoolOk, ProcsOk;
    if e.Adopt? || e.PrebuildClaim? {
      TakenSlot(u, n, e, i);
    }
  }

  lemma TakenSlot(u: set<Id>, n: Net, e: Event, i: nat)
    requires n.phase.Running? && Enabled(u, n, e) && PoolOk(n) && ProcsOk(u, n) && Building(n, i) && (e.Adopt? || e.PrebuildClaim?)
    ensures var n' := Apply(u, n, e); Building(n', i) && n'.pool[i] == n.pool[i]
  {
    hide ShortHex, NoDashes, ClaimIdx, Release, Careful;
    if e.Adopt? {
      assert ProcOk(u, n, e.id, n.procs[e.id]);
    } else {
      assert n.rows[Lowest(n.rows, None, 0)].None?;
    }
  }

  lemma ClaimInRange(rows: Rows, id: Id)
    requires ClaimIdx(rows, id).Some?
    ensures ClaimIdx(rows, id).value < |rows|
  {
  }

  lemma ForeignSandbox(u: set<Id>, n: Net, e: Event, x: Id, mine: Option<nat>)
    requires n.phase.Running? && Foreign(e, Some(x), mine) && Enabled(u, n, e)
    ensures SameSandbox(n, Apply(u, n, e), x)
  {
    hide ShortHex, NoDashes, Release, ClaimIdx, Lowest;
    if e.SlowClaim? {
      ClaimInRange(n.rows, e.id);
    }
  }

  /** The guarantee every goroutine gives the others. */
  lemma ForeignStep(u: set<Id>, n: Net, e: Event, me: Option<Id>, mine: Option<nat>)
    requires DistinctShorts(u) && Inv(u, n) && n.phase.Running? && Foreign(e, me, mine)
    ensures Inv(u, Step(u, n, e)) && Later(n, Step(u, n, e), me, mine)
  {
    StepKeepsInv(u, n, e);
    if Enabled(u, n, e) {
      assert PoolOk(n) && ProcsOk(u, n);
      hide Inv, Enabled, Apply, Foreign, SameSandbox, Building, PoolOk, ProcsOk;
      ForeignShape(u, n, e, me, mine);
      if mine.Some? && Building(n, mine.value) {
        ForeignSlot(u, n, e, me, mine.value);
      }
      if me.Some? {
        ForeignSandbox(u, n, e, me.value, mine);
      }
    } else {
      hide Inv;
      LaterRefl(n, me, mine);
    }
  }

  lemma ParkedFacts(u: set<Id>, n: Net, i: nat)
    requires Inv(u, n) && i in n.pool && n.pool[i] == Parked
    ensures i < |n.rows| && n.rows[i] == Some(Prebuilt(i)) && Pre(i) in n.kernel && n.kernel[Pre(i)] == i
  {
    hide BootOk, ProcsOk, PayloadOk, SingleOwner;
  }

  lemma LedgerFacts(u: set<Id>, n: Net)
    requires Inv(u, n)
    ensures SingleOwner(n.rows)
  {
  }

  lemma PoppedFacts(u: set<Id>, n: Net, id: Id)
    requires Inv(u, n) && id in n.procs && n.procs[id].Popped?
    ensures var i := n.procs[id].idx; i < |n.rows| && n.rows[i] == Some(Prebuilt(i))
    ensures HoldsNothing(n, id) && id in u && id !in n.retired
  {
    hide BootOk, PayloadOk, SingleOwner, KernelOk, ShortHex;
    assert ProcOk(u, n, id, n.procs[id]);
  }

  /** What an adoption, granted or not, makes of a slot that is still under its sentinel. */
  lemma AdoptStep(u: set<Id>, n: Net, id: Id, ok: bool, gone: bool)
    requires id in n.procs && n.procs[id].Popped? && id in u && id !in n.retired && HoldsNothing(n, id)
    requires var i := n.procs[id].idx; i < |n.rows| && n.rows[i] == Some(Prebuilt(i))
    ensures var (s, i) := (Step(u, n, Adopt(id, ok, gone)), n.procs[id].idx);
      && s == (if ok then n.(rows := n.rows[i := Some(Sandbox(id))], pool := n.pool - {i}, procs := n.procs[id := Adopted(i)])
               else n.(kernel := if gone then n.kernel - {Pre(i)} else n.kernel, pool := n.pool - {i}, procs := n.procs - {id}))
      && (!ok && n.phase.Running? ==> CanAllocate(u, s, id))
  {
    hide ShortHex, NoDashes, ClaimIdx, Release;
  }

  lemma AdoptedFacts(u: set<Id>, n: Net, id: Id)
    requires Inv(u, n) && id in n.procs && n.procs[id].Adopted?
    ensures var i := n.procs[id].idx; Pre(i) in n.kernel && n.kernel[Pre(i)] == i && Owns(n, id, i)
  {
    hide BootOk, PayloadOk, SingleOwner, PoolOk, ShortHex;
    assert ProcOk(u, n, id, n.procs[id]);
  }

  lemma BuiltFacts(u: set<Id>, n: Net, id: Id)
    requires Inv(u, n) && id in n.procs && n.procs[id].SlowBuilt?
    ensures NsOf(id) in n.kernel && n.kernel[NsOf(id)] == n.procs[id].idx
  {
    hide BootOk, PayloadOk, SingleOwner, PoolOk, KernelOk, ShortHex;
    assert ProcOk(u, n, id, n.procs[id]);
  }

  lemma NoPayload(u: set<Id>, n: Net, id: Id)
    requires Inv(u, n) && id in n.procs && (n.procs[id].Adopted? || n.procs[id].SlowBroken?)
    ensures id !in n.payload
  {
    hide BootOk, PayloadOk, SingleOwner, PoolOk, KernelOk, ShortHex;
    assert ProcOk(u, n, id, n.procs[id]);
  }

  lemma LeftFacts(u: set<Id>, n: Net, id: Id)
    requires Inv(u, n) && id in n.procs && n.procs[id].RelDeleted? && n.procs[id].left.Some?
    ensures var m := n.procs[id].left.value; IsNs(m) && (m in n.kernel ==> Owns(n, id, n.kernel[m]))
  {
    hide BootOk, PayloadOk, SingleOwner, PoolOk, KernelOk, ShortHex;
    assert ProcOk(u, n, id, n.procs[id]);
  }

  /** Whether a release that ends like this leaves everything in order, m being what the payload row named. */
  predicate EndsClean(kernel: map<NsName, nat>, m: Option<NsName>, destroyed: bool, deleted: bool, freed: bool) {
    m.Some? ==>
      && (!destroyed && m.value in kernel ==> !freed && !deleted)
      && (freed && !deleted ==> !m.value.Pre?)
  }

  /** What the free does to the sandbox, and when it is clean. */
  lemma FreeFacts(u: set<Id>, n: Net, id: Id, m: Option<NsName>, destroyed: bool, deleted: bool, ok: bool)
    requires id in n.procs && n.procs[id] == RelDeleted(if destroyed then None else m)
    requires Get(n.payload, id) == if deleted then None else m
    ensures var s := AnyStep(u, n, RelFree(id, ok));
            && id !in s.procs && s.phase == n.phase && s.kernel == n.kernel && s.retired == n.retired
            && s.payload == n.payload
            && (ok ==> forall i :: 0 <= i < |s.rows| ==> s.rows[i] != Some(Sandbox(id)))
            && (ok && deleted ==> HoldsNothing(s, id))
            && (ok && m.Some? && m.value in n.kernel && IsNs(m.value) && Owns(n, id, n.kernel[m.value]) ==>
                  Poisoned(s, n.kernel[m.value]))
    ensures HandsOverClean(n, RelFree(id, ok)) <==> EndsClean(n.kernel, m, destroyed, deleted, ok)
  {
    hide ShortHex, NoDashes, ClaimIdx;
  }

  lemma RetiredStays(u: set<Id>, n: Net, id: Id)
    requires Inv(u, n) && id in n.procs
    ensures id in u && id !in n.retired
  {
    hide BootOk, PayloadOk, SingleOwner, PoolOk, KernelOk, ShortHex;
    assert ProcOk(u, n, id, n.procs[id]);
  }

  lemma BrokenFacts(u: set<Id>, n: Net, id: Id)
    requires Inv(u, n) && id in n.procs && n.procs[id].SlowBroken?
    ensures Owns(n, id, n.procs[id].idx)
  {
    hide BootOk, PayloadOk, SingleOwner, PoolOk, KernelOk, ShortHex;
    assert ProcOk(u, n, id, n.procs[id]);
  }

  lemma LowestIsFull(rows: Rows)
    ensures Lowest(rows, None, 0) == |rows| ==> forall i :: 0 <= i < |rows| ==> rows[i].Some?
  {
  }

  lemma NothingOnRecord(n: Net, id: Id)
    requires HoldsNothing(n, id)
    ensures id !in n.payload
  {
  }

  lemma Freed(rows: Rows, n: Net, id: Id)
    requires n.rows == Release(rows, Sandbox(id)) && id !in n.payload
    ensures HoldsNothing(n, id)
  {
  }

  /** A call to the stores or the kernel. */
  datatype Call =
    | ReadRow(id: Id) | SaveRow(id: Id) | DeleteRowOf(id: Id)
    | ClaimFree | Reassigned(idx: nat) | FreeRows(o: Owner)
    | Add(m: NsName) | RemoveNs(m: NsName)

  /** The stores and the kernel: every call made by the goroutine at hand, and whether it worked. */
  class Outside {
    ghost var asked: seq<(Call, bool)>
    ghost var failures: nat

    constructor ()
      ensures asked == [] && failures == 0
    {
      asked, failures := [], 0;
    }

    method Try(c: Call) returns (ok: bool)
      modifies this
      ensures asked == old(asked) + [(c, ok)] && failures == old(failures) + if ok then 0 else 1
    {
      ok := *;
      asked, failures := asked + [(c, ok)], failures + if ok then 0 else 1;
    }
  }

  class Pool {
    /** The sandbox ids of the host's life. */
    const u: set<Id>
    /** The slot ledger. */
    const slots: SlotStore
    const outside: Outside
    var kernel: map<NsName, nat>
    var payload: map<Id, NsName>
    var live: set<Id>
    var retired: set<Id>
    /** natidFree is the parked entries; the others are being built or were just popped. */
    var pool: map<nat, PoolPc>
    /** Where each sandbox's allocate or release is. */
    var procs: map<Id, Pc>
    /** Whether the last boot's sweep was complete. */
    var clean: bool

    function View(): Net
      reads this, slots
    {
      Net(slots.rows, kernel, payload, live, retired, pool, procs, Running(clean))
    }

    ghost predicate Valid()
      reads this, slots
    {
      DistinctShorts(u) && Inv(u, View())
    }

    /** The pool of an agent whose boot has left this host: an empty free list and no operation under way. */
    constructor (n: Net, u: set<Id>, slots: SlotStore, outside: Outside)
      requires DistinctShorts(u) && Inv(u, n) && n.phase.Running? && n.pool == map[] && n.procs == map[] && slots.rows == n.rows
      ensures Valid() && this.u == u && this.slots == slots && this.outside == outside && View() == n
    {
      hide DistinctShorts, Inv;
      this.u, this.slots, this.outside := u, slots, outside;
      kernel, payload, live, retired := n.kernel, n.payload, n.live, n.retired;
      pool, procs, clean := map[], map[], n.phase.clean;
    }

    /** Any number of steps of other goroutines. */
    method Interfere(me: Option<Id>, mine: Option<nat>)
      requires Valid()
      modifies this, slots
      ensures Valid() && Later(old(View()), View(), me, mine)
    {
      hide DistinctShorts, Inv, Step, Foreign, SameSandbox, Building;
      LaterRefl(View(), me, mine);
      var n: nat := *;
      while n > 0
        invariant Valid() && Later(old(View()), View(), me, mine)
      {
        var e: Event := *;
        if Foreign(e, me, mine) {
          ForeignStep(u, View(), e, me, mine);
          var s := Step(u, View(), e);
          LaterTrans(old(View()), View(), s, me, mine);
          slots.rows, kernel, payload, live := s.rows, s.kernel, s.payload, s.live;
          retired, pool, procs, clean := s.retired, s.pool, s.procs, s.phase.clean;
        }
        n := n - 1;
      }
    }

    // ---- prebuilding ----

    /** The lowest free slot, under its own sentinel; none if all are owned or the ledger fails. */
    method ClaimPrebuilt() returns (r: Option<nat>)
      requires Valid()
      modifies this, slots, outside
      ensures Valid() && outside.failures >= old(outside.failures)
      ensures r.Some? ==> View() == Step(u, old(View()), PrebuildClaim) && r.value in pool && pool[r.value] == Claimed
      ensures r.None? ==> View() == old(View())
      ensures r.None? ==> outside.failures > old(outside.failures) || Full()
    {
      hide DistinctShorts, Inv, ShortHex, NoDashes, Lowest, ClaimIdx, Release;
      var works := outside.Try(ClaimFree);
      if !works {
        return None;
      }
      StepKeepsInv(u, View(), PrebuildClaim);
      ghost var s := Step(u, View(), PrebuildClaim);
      LedgerFacts(u, View());
      LowestIsFull(slots.rows);
      r := slots.ClaimPrebuilt();
      if r.Some? {
        pool := pool[r.value := Claimed];
        assert View() == s;
      }
    }

    /** Every slot has an owner. */
    ghost predicate Full()
      reads this, slots
    {
      forall i :: 0 <= i < |slots.rows| ==> slots.rows[i].Some?
    }

    method ClearSlot(i: nat)
      requires Valid() && i in pool && pool[i] == Claimed
      modifies this, slots
      ensures Valid() && i in pool && pool[i] == Cleared && View() == Step(u, old(View()), BuildClear(i))
    {
      hide DistinctShorts, Inv, ShortHex, NoDashes, Lowest, ClaimIdx, Release;
      StepKeepsInv(u, View(), BuildClear(i));
      ghost var s := Step(u, View(), BuildClear(i));
      kernel, pool := kernel - {Pre(i)}, pool[i := Cleared];
      assert View() == s;
    }

    method AddSlot(i: nat)
      requires Valid() && i in pool && pool[i] == Cleared
      modifies this, slots
      ensures Valid() && i in pool && pool[i] == Built && View() == Step(u, old(View()), BuildAdd(i))
    {
      hide DistinctShorts, Inv, ShortHex, NoDashes, Lowest, ClaimIdx, Release;
      StepKeepsInv(u, View(), BuildAdd(i));
      ghost var s := Step(u, View(), BuildAdd(i));
      kernel, pool := kernel[Pre(i) := i], pool[i := Built];
      assert View() == s;
    }

    /** netns.Create undoes what it did; `gone` if the namespace could be removed. */
    method DropSlot(i: nat) returns (gone: bool)
      requires Valid() && i in pool && (pool[i] == Claimed || pool[i] == Cleared || pool[i] == Built)
      modifies this, slots, outside
      ensures Valid() && i in pool && pool[i] == Broken && (gone ==> Pre(i) !in kernel)
      ensures View() == Step(u, old(View()), BuildFail(i, gone)) && outside.asked == old(outside.asked) + [(RemoveNs(Pre(i)), gone)]
      ensures outside.failures >= old(outside.failures)
    {
      hide DistinctShorts, Inv, ShortHex, NoDashes, Lowest, ClaimIdx, Release;
      gone := outside.Try(RemoveNs(Pre(i)));
      StepKeepsInv(u, View(), BuildFail(i, gone));
      ghost var s := Step(u, View(), BuildFail(i, gone));
      kernel, pool := if gone then kernel - {Pre(i)} else kernel, pool[i := Broken];
      assert View() == s;
    }

    /** The slot goes back; `dirty` if the ledger took it and the namespace still stands on it. */
    method GiveBack(i: nat) returns (freed: bool, dirty: bool)
      requires Valid() && i in pool && pool[i] == Broken
      modifies this, slots, outside
      ensures View() == AnyStep(u, old(View()), BuildAbort(i, freed))
      ensures outside.asked == old(outside.asked) + [(FreeRows(Prebuilt(i)), freed)] && outside.failures >= old(outside.failures)
      ensures i !in pool && kernel == old(kernel) && (freed ==> Some(Prebuilt(i)) !in slots.rows)
      ensures dirty <==> freed && Pre(i) in kernel
      ensures if dirty then Poisoned(View(), i) && (clean ==> !Valid()) else Valid()
    {
      hide DistinctShorts, Inv, ShortHex, NoDashes, Lowest, ClaimIdx, Release, Poisoned, Stray;
      freed := outside.Try(FreeRows(Prebuilt(i)));
      dirty := freed && Pre(i) in kernel;
      if dirty {
        DirtyPrebuild(u, View(), i, freed);
      } else {
        StepKeepsInv(u, View(), BuildAbort(i, freed));
      }
      ghost var s := AnyStep(u, View(), BuildAbort(i, freed));
      LedgerFacts(u, View());
      if freed {
        var _ := slots.Free(Prebuilt(i));
      }
      pool := pool - {i};
      assert View() == s;
      if dirty && clean {
        StrayBreaks(u, View(), Pre(i));
      }
    }

    method ParkSlot(i: nat)
      requires Valid() && i in pool && pool[i] == Built
      modifies this, slots
      ensures Valid() && i in pool && pool[i] == Parked && View() == Step(u, old(View()), Park(i))
    {
      hide DistinctShorts, Inv, ShortHex, NoDashes, Lowest, ClaimIdx, Release;
      StepKeepsInv(u, View(), Park(i));
      ghost var s := Step(u, View(), Park(i));
      pool := pool[i := Parked];
      assert View() == s;
    }

    /** PrebuildNATID: on success the slot is parked under its own sentinel with its namespace up. It fails only if a call
        did, or all slots are owned. A failed build gives the slot back; if its namespace could not be removed, the free slot
        is poisoned. */
    method PrebuildNATID() returns (r: Option<nat>, dirty: Option<nat>)
      requires Valid()
      modifies this, slots, outside
      ensures dirty.None? ==> Valid()
      ensures dirty.Some? ==> r.None? && Poisoned(View(), dirty.value) && (clean ==> !Valid())
      ensures r.Some? ==>
        && r.value in pool && pool[r.value] == Parked
        && r.value < |slots.rows| && slots.rows[r.value] == Some(Prebuilt(r.value))
        && Pre(r.value) in kernel && kernel[Pre(r.value)] == r.value
      ensures r.None? ==> outside.failures > old(outside.failures) || Full()
    {
      hide DistinctShorts, Inv, Lowest, SameSandbox, Poisoned, Step, AnyStep, Pool.Full;
      var claimed := ClaimPrebuilt();
      if claimed.None? {
        return None, None;
      }
      var i := claimed.value;
      Interfere(None, Some(i));
      var works := outside.Try(RemoveNs(Pre(i)));
      if works {
        ClearSlot(i);
        Interfere(None, Some(i));
        works := outside.Try(Add(Pre(i)));
        if works {
          AddSlot(i);
          Interfere(None, Some(i));
          works := outside.Try(Add(Pre(i)));
        }
      }
      if !works {
        var _ := DropSlot(i);
        Interfere(None, Some(i));
        var _, spoilt := GiveBack(i);
        return None, if spoilt then Some(i) else None;
      }
      ParkSlot(i);
      ParkedFacts(u, View(), i);
      r, dirty := Some(i), None;
    }

    // ---- allocating ----

    /** The free list's pop, under the lock: some parked slot, if there is one. */
    method PopSlot(id: Id) returns (r: Option<nat>)
      requires Valid() && CanAllocate(u, View(), id)
      modifies this, slots
      ensures Valid()
      ensures r.None? ==> View() == old(View()) && forall i :: i in pool ==> !pool[i].Parked?
      ensures r.Some? ==> id in procs && procs[id] == Popped(r.value)
      ensures r.Some? ==> r.value in old(pool) && old(pool)[r.value].Parked? && View() == Step(u, old(View()), NetMachine.Event.Pop(id, r.value))
    {
      hide DistinctShorts, Inv, ShortHex, NoDashes;
      if i :| i in pool && pool[i].Parked? {
        StepKeepsInv(u, View(), NetMachine.Event.Pop(id, i));
        ghost var s := Step(u, View(), NetMachine.Event.Pop(id, i));
        pool, procs := pool[i := PoppedBy(id)], procs[id := Popped(i)];
        assert View() == s;
        return Some(i);
      }
      r := None;
    }

    /** Reassign. It is not refused; when the ledger fails, the parked namespace is removed, or left to its sentinel. */
    method AdoptSlot(id: Id) returns (ok: bool)
      requires Valid() && id in procs && procs[id].Popped?
      modifies this, slots, outside
      ensures Valid() && outside.failures >= old(outside.failures)
      ensures |outside.asked| > |old(outside.asked)| && old(outside.asked) <= outside.asked
      ensures outside.asked[|old(outside.asked)|] == (Reassigned(old(procs)[id].idx), ok)
      ensures ok ==> id in procs && procs[id] == Adopted(old(procs)[id].idx) && View() == Step(u, old(View()), Adopt(id, true, true))
      ensures !ok ==> id !in procs && slots.rows == old(slots.rows) && CanAllocate(u, View(), id)
    {
      hide DistinctShorts, Inv, ShortHex, NoDashes, Step, CanAllocate;
      PoppedFacts(u, View(), id);
      var i := procs[id].idx;
      ok := outside.Try(Reassigned(i));
      var gone := true;
      if !ok {
        gone := outside.Try(RemoveNs(Pre(i)));
      }
      StepKeepsInv(u, View(), Adopt(id, ok, gone));
      AdoptStep(u, View(), id, ok, gone);
      ghost var s := Step(u, View(), Adopt(id, ok, gone));
      LedgerFacts(u, View());
      if ok {
        var adopted := slots.Reassign(i, id);
        assert adopted;
      }
      pool := pool - {i};
      kernel := if ok || !gone then kernel else kernel - {Pre(i)};
      procs := if ok then procs[id := Adopted(i)] else procs - {id};
      assert View() == s;
    }

    method SaveAdopted(id: Id)
      requires Valid() && id in procs && procs[id].Adopted?
      modifies this, slots
      ensures Valid() && View() == Step(u, old(View()), SaveFast(id))
      ensures id !in procs && Connected(View(), id) && id in payload && payload[id] == Pre(old(procs)[id].idx) && kernel[payload[id]] == old(procs)[id].idx
    {
      hide DistinctShorts, Inv, ShortHex, NoDashes, Lowest, ClaimIdx, Release;
      AllocationConnects(u, View(), id, SaveFast(id));
      AdoptedFacts(u, View(), id);
      StepKeepsInv(u, View(), SaveFast(id));
      ghost var s := Step(u, View(), SaveFast(id));
      payload, procs := payload[id := Pre(procs[id].idx)], procs - {id};
      assert View() == s;
    }

    /** The rollback of a failed payload save, both steps; either may fail. In between the index is free with its namespace
        up: what others can make of that is NetSafety.FailedSavePoisons and PoisonCollides; here nobody runs in between. */
    method RollBack(id: Id) returns (freed: bool, gone: bool)
      requires Valid() && id in procs && procs[id].Adopted?
      modifies this, slots, outside
      ensures View() == RolledBack(old(View()), id, freed, gone)
      ensures var i := old(procs)[id].idx;
        outside.asked == old(outside.asked) + [(FreeRows(Sandbox(id)), freed), (RemoveNs(Pre(i)), gone)]
      ensures outside.failures >= old(outside.failures)
      ensures id !in procs && id !in payload && if freed then HoldsNothing(View(), id) else Owns(View(), id, old(procs)[id].idx)
      ensures gone ==> Valid()
      ensures !gone ==> Stray(View(), Pre(old(procs)[id].idx)) && (clean ==> !Valid())
      ensures !gone && freed ==> Poisoned(View(), old(procs)[id].idx)
    {
      hide DistinctShorts, Inv, ShortHex, NoDashes, Lowest, ClaimIdx, Release, HoldsNothing, Poisoned, Stray;
      var i := procs[id].idx;
      freed := outside.Try(FreeRows(Sandbox(id)));
      gone := outside.Try(RemoveNs(Pre(i)));
      NoPayload(u, View(), id);
      AdoptedFacts(u, View(), id);
      if gone {
        RolledBackInv(u, View(), id, freed);
      } else {
        RolledBackStray(u, View(), id, freed);
      }
      ghost var s := RolledBack(View(), id, freed, gone);
      LedgerFacts(u, View());
      if freed {
        var _ := slots.Free(Sandbox(id));
        assert slots.rows == RollbackFree(old(View()), id).rows;
      }
      kernel := if gone then kernel - {Pre(i)} else kernel;
      procs := procs - {id};
      assert View() == s;
      assert freed ==> HoldsNothing(View(), id) by { if freed { Freed(old(slots.rows), View(), id); } }
      if !gone && clean {
        StrayBreaks(u, View(), Pre(i));
      }
    }

    /** slots.Claim for the slow path; nothing changes when the pool is exhausted or the ledger fails. */
    method ClaimSlot(id: Id) returns (r: Option<nat>)
      requires Valid() && CanAllocate(u, View(), id)
      modifies this, slots, outside
      ensures Valid() && outside.failures >= old(outside.failures)
      ensures r.None? ==> View() == old(View()) && (outside.failures > old(outside.failures) || Full())
      ensures r.Some? ==> id in procs && procs[id] == SlowClaimed(r.value) && View() == Step(u, old(View()), SlowClaim(id))
    {
      hide DistinctShorts, Inv, ShortHex, NoDashes, Lowest;
      var works := outside.Try(ClaimFree);
      if !works {
        return None;
      }
      StepKeepsInv(u, View(), SlowClaim(id));
      ghost var s := Step(u, View(), SlowClaim(id));
      LedgerFacts(u, View());
      r := slots.Claim(id);
      if r.Some? {
        procs := procs[id := SlowClaimed(r.value)];
        assert View() == s;
      }
    }

    /** netns.Create first removes a namespace of that name. */
    method ClearName(id: Id)
      requires Valid() && id in procs && procs[id].SlowClaimed?
      modifies this, slots
      ensures Valid() && id in procs && procs[id] == SlowCleared(old(procs)[id].idx) && View() == Step(u, old(View()), SlowClear(id))
    {
      hide DistinctShorts, Inv, ShortHex, NoDashes, Lowest, ClaimIdx, Release;
      StepKeepsInv(u, View(), SlowClear(id));
      ghost var s := Step(u, View(), SlowClear(id));
      kernel, procs := kernel - {NsOf(id)}, procs[id := SlowCleared(procs[id].idx)];
      assert View() == s;
    }

    method AddName(id: Id)
      requires Valid() && id in procs && procs[id].SlowCleared?
      modifies this, slots
      ensures Valid() && id in procs && procs[id] == SlowBuilt(old(procs)[id].idx) && View() == Step(u, old(View()), SlowAdd(id))
    {
      hide DistinctShorts, Inv, ShortHex, NoDashes, Lowest, ClaimIdx, Release;
      StepKeepsInv(u, View(), SlowAdd(id));
      ghost var s := Step(u, View(), SlowAdd(id));
      kernel, procs := kernel[NsOf(id) := procs[id].idx], procs[id := SlowBuilt(procs[id].idx)];
      assert View() == s;
    }

    method DropName(id: Id) returns (gone: bool)
      requires Valid() && id in procs && (procs[id].SlowClaimed? || procs[id].SlowCleared? || procs[id].SlowBuilt?)
      modifies this, slots, outside
      ensures Valid() && id in procs && procs[id].SlowBroken? && (gone ==> NsOf(id) !in kernel)
      ensures View() == Step(u, old(View()), SlowFail(id, gone)) && outside.asked == old(outside.asked) + [(RemoveNs(NsOf(id)), gone)]
      ensures outside.failures >= old(outside.failures)
    {
      hide DistinctShorts, Inv, ShortHex, NoDashes, Lowest, ClaimIdx, Release;
      gone := outside.Try(RemoveNs(NsOf(id)));
      StepKeepsInv(u, View(), SlowFail(id, gone));
      ghost var s := Step(u, View(), SlowFail(id, gone));
      kernel, procs := if gone then kernel - {NsOf(id)} else kernel, procs[id := SlowBroken(procs[id].idx)];
      assert View() == s;
    }

    /** `dirty` if the namespace still stands: on a free slot if the ledger took it, out of sight in any case. */
    method Unclaim(id: Id) returns (freed: bool, dirty: bool)
      requires Valid() && id in procs && procs[id].SlowBroken?
      modifies this, slots, outside
      ensures View() == AnyStep(u, old(View()), SlowAbort(id, freed))
      ensures outside.asked == old(outside.asked) + [(FreeRows(Sandbox(id)), freed)] && outside.failures >= old(outside.failures)
      ensures id !in procs && id !in payload && kernel == old(kernel)
      ensures if freed then HoldsNothing(View(), id) else Owns(View(), id, old(procs)[id].idx)
      ensures dirty <==> NsOf(id) in kernel
      ensures !dirty ==> Valid()
      ensures dirty && clean ==> Stray(View(), NsOf(id)) && !Valid() && (freed ==> Poisoned(View(), kernel[NsOf(id)]))
    {
      hide DistinctShorts, Inv, ShortHex, NoDashes, Lowest, ClaimIdx, Release, HoldsNothing, Poisoned, Stray;
      freed := outside.Try(FreeRows(Sandbox(id)));
      dirty := NsOf(id) in kernel;
      NoPayload(u, View(), id);
      BrokenFacts(u, View(), id);
      if !dirty {
        StepKeepsInv(u, View(), SlowAbort(id, freed));
      } else if clean {
        DirtySlow(u, View(), id, freed);
      }
      ghost var s := AnyStep(u, View(), SlowAbort(id, freed));
      LedgerFacts(u, View());
      if freed {
        var _ := slots.Free(Sandbox(id));
      }
      procs := procs - {id};
      assert View() == s;
      assert freed ==> HoldsNothing(View(), id) by { if freed { Freed(old(slots.rows), View(), id); } }
      if dirty && clean {
        StrayBreaks(u, View(), NsOf(id));
      }
    }

    method SaveBuilt(id: Id)
      requires Valid() && id in procs && procs[id].SlowBuilt?
      modifies this, slots
      ensures Valid() && View() == Step(u, old(View()), SlowSave(id))
      ensures id !in procs && Connected(View(), id) && id in payload && payload[id] == NsOf(id) && kernel[payload[id]] == old(procs)[id].idx
    {
      hide DistinctShorts, Inv, ShortHex, NoDashes, Lowest, ClaimIdx, Release;
      AllocationConnects(u, View(), id, SlowSave(id));
      BuiltFacts(u, View(), id);
      StepKeepsInv(u, View(), SlowSave(id));
      ghost var s := Step(u, View(), SlowSave(id));
      payload, procs := payload[id := NsOf(id)], procs - {id};
      assert View() == s;
    }

    /** AllocateNATID: a sandbox that holds nothing ends connected, by either path, unless a call failed or every slot is
        owned. If it fails, the sandbox has no payload row and holds nothing, unless the ledger failed to take the slot back
        (`kept`); if the namespace could not be removed, it stands there unaccounted for (`dirty`). */
    method AllocateNATID(id: Id) returns (r: Option<NsName>, kept: bool, dirty: bool)
      requires Valid() && CanAllocate(u, View(), id)
      modifies this, slots, outside
      ensures id !in procs
      ensures !dirty ==> Valid()
      ensures r.Some? ==> Valid() && Connected(View(), id) && id in payload && payload[id] == r.value
      ensures r.None? ==> id !in payload && (!kept ==> HoldsNothing(View(), id))
      ensures r.None? ==> outside.failures > old(outside.failures) || Full()
      ensures kept ==> r.None? && exists i :: Owns(View(), id, i)
      ensures dirty && clean ==> r.None? && !Valid() && ((exists i :: Stray(View(), Pre(i))) || Stray(View(), NsOf(id)))
    {
      hide DistinctShorts, Inv, Connected, HoldsNothing, Building, Stray, Poisoned, Step, AnyStep, RolledBack, Pool.Full;
      kept, dirty := false, false;
      var slot := PopSlot(id);
      Interfere(Some(id), None);
      if slot.Some? {
        var adopted := AdoptSlot(id);
        Interfere(Some(id), None);
        if adopted {
          var saved := outside.Try(SaveRow(id));
          if !saved {
            var freed, gone := RollBack(id);
            return None, !freed, !gone;
          }
          SaveAdopted(id);
          return Some(payload[id]), false, false;
        }
      }
      assert id !in payload by { NothingOnRecord(View(), id); }
      var idx := ClaimSlot(id);
      if idx.None? {
        return None, false, false;
      }
      Interfere(Some(id), None);
      r, kept, dirty := BuildSlow(id);
    }

    /** netns.Create and the payload save of the slow path; both undo in the order destroy, then release. */
    method BuildSlow(id: Id) returns (r: Option<NsName>, kept: bool, dirty: bool)
      requires Valid() && id in procs && procs[id].SlowClaimed?
      modifies this, slots, outside
      ensures id !in procs
      ensures !dirty ==> Valid()
      ensures r.Some? ==> Valid() && Connected(View(), id) && id in payload && payload[id] == r.value
      ensures r.None? ==> id !in payload && (!kept ==> HoldsNothing(View(), id))
      ensures outside.failures >= old(outside.failures) && (r.None? ==> outside.failures > old(outside.failures))
      ensures kept ==> r.None? && exists i :: Owns(View(), id, i)
      ensures dirty && clean ==> r.None? && !Valid() && Stray(View(), NsOf(id)) && (!kept ==> Poisoned(View(), kernel[NsOf(id)]))
    {
      hide DistinctShorts, Inv, Connected, HoldsNothing, Building, Stray, Poisoned, Step, AnyStep;
      var works := outside.Try(RemoveNs(NsOf(id)));
      if works {
        ClearName(id);
        Interfere(Some(id), None);
        works := outside.Try(Add(NsOf(id)));
        if works {
          AddName(id);
          Interfere(Some(id), None);
          works := outside.Try(SaveRow(id));
        }
      }
      if !works {
        var _ := DropName(id);
        Interfere(Some(id), None);
        var freed, spoilt := Unclaim(id);
        return None, !freed, spoilt;
      }
      SaveBuilt(id);
      r, kept, dirty := Some(payload[id]), false, false;
    }

    // ---- releasing ----

    method ReadPayload(id: Id) returns (read: bool)
      requires Valid() && id in u && id !in procs && id !in retired
      modifies this, slots, outside
      ensures Valid() && id in procs && View() == Step(u, old(View()), RelBegin(id, read))
      ensures outside.asked == old(outside.asked) + [(ReadRow(id), read)]
      ensures payload == old(payload) && procs[id] == RelRead(if read then Get(old(payload), id) else None, Get(old(payload), id))
    {
      hide DistinctShorts, Inv, ShortHex, NoDashes, Lowest, ClaimIdx, Release;
      read := outside.Try(ReadRow(id));
      StepKeepsInv(u, View(), RelBegin(id, read));
      ghost var s := Step(u, View(), RelBegin(id, read));
      procs := procs[id := RelRead(if read then Get(payload, id) else None, Get(payload, id))];
      assert View() == s;
    }

    /** If the row was read and names a namespace, its removal is tried; if that works, it goes while the slot is still owned.
        Otherwise the release goes on with it standing. */
    method DestroyOwn(id: Id) returns (gone: bool)
      requires Valid() && id in procs && procs[id].RelRead?
      modifies this, slots, outside
      ensures Valid() && id in procs && View() == Step(u, old(View()), RelDestroy(id, gone))
      ensures var was := old(procs)[id];
        && (outside.asked == old(outside.asked) + if was.name.Some? then [(RemoveNs(was.name.value), gone)] else [])
        && (was.name.None? ==> gone)
        && if was.name.Some? && gone then
             procs[id] == RelDestroyed(None) && was.name.value !in kernel && kernel == old(kernel) - {was.name.value}
           else procs[id] == RelDestroyed(was.left) && kernel == old(kernel)
      ensures slots.rows == old(slots.rows) && payload == old(payload)
    {
      hide DistinctShorts, Inv, ShortHex, NoDashes, Lowest, ClaimIdx, Release;
      var m := procs[id].name;
      gone := true;
      if m.Some? {
        gone := outside.Try(RemoveNs(m.value));
      }
      StepKeepsInv(u, View(), RelDestroy(id, gone));
      ghost var s := Step(u, View(), RelDestroy(id, gone));
      if m.Some? && gone {
        kernel := kernel - {m.value};
        procs := procs[id := RelDestroyed(None)];
      } else {
        procs := procs[id := RelDestroyed(procs[id].left)];
      }
      assert View() == s;
    }

    method DropPayload(id: Id) returns (deleted: bool)
      requires Valid() && id in procs && procs[id].RelDestroyed?
      modifies this, slots, outside
      ensures Valid() && id in procs && View() == Step(u, old(View()), RelDelete(id, deleted))
      ensures outside.asked == old(outside.asked) + [(DeleteRowOf(id), deleted)]
      ensures procs[id] == RelDeleted(old(procs)[id].left) && Get(payload, id) == if deleted then None else Get(old(payload), id)
    {
      hide DistinctShorts, Inv, ShortHex, NoDashes, Lowest, ClaimIdx, Release;
      deleted := outside.Try(DeleteRowOf(id));
      StepKeepsInv(u, View(), RelDelete(id, deleted));
      ghost var s := Step(u, View(), RelDelete(id, deleted));
      payload, procs := if deleted then payload - {id} else payload, procs[id := RelDeleted(procs[id].left)];
      assert View() == s;
    }

    /** The slot goes back, unless the ledger fails. */
    method FreeSlot(id: Id) returns (freed: bool)
      requires Valid() && id in procs && procs[id].RelDeleted?
      modifies this, slots, outside
      ensures View() == AnyStep(u, old(View()), RelFree(id, freed))
      ensures outside.asked == old(outside.asked) + [(FreeRows(Sandbox(id)), freed)]
      ensures HandsOverClean(old(View()), RelFree(id, freed)) ==> Valid()
      ensures clean && !HandsOverClean(old(View()), RelFree(id, freed)) ==> !Valid()
    {
      hide DistinctShorts, Inv, ShortHex, NoDashes, Lowest, ClaimIdx, Release, HandsOverClean;
      freed := outside.Try(FreeRows(Sandbox(id)));
      if HandsOverClean(View(), RelFree(id, freed)) {
        StepKeepsInv(u, View(), RelFree(id, freed));
      } else if clean {
        HandOverIff(u, View(), RelFree(id, freed));
      }
      LedgerFacts(u, View());
      if freed {
        var _ := slots.Free(Sandbox(id));
      }
      procs := procs - {id};
      assert View() == AnyStep(u, old(View()), RelFree(id, freed));
    }

    /** ReleaseNATID. Its calls are the payload read, the removal if the row was read and there is one, the payload delete and
        the ledger's release, always all of them and in this order; the out-parameters are how they went (`gone` also if there
        was nothing to remove). If all worked, the sandbox holds nothing and may allocate again. The slot is freed whatever
        failed before, and then a namespace left standing poisons it; the code reports only the last two. */
    method ReleaseNATID(id: Id) returns (read: bool, gone: bool, deleted: bool, freed: bool)
      requires Valid() && id in u && id !in procs && id !in retired
      modifies this, slots, outside
      ensures id !in procs && id !in retired
      ensures var m := Get(old(payload), id);
        outside.asked == old(outside.asked) + [(ReadRow(id), read)]
          + (if read && m.Some? then [(RemoveNs(m.value), gone)] else []) + [(DeleteRowOf(id), deleted)]
          + [(FreeRows(Sandbox(id)), freed)]
      ensures Get(payload, id) == if deleted then None else Get(old(payload), id)
      ensures freed ==> forall i :: 0 <= i < |slots.rows| ==> slots.rows[i] != Some(Sandbox(id))
      ensures read && gone && deleted && freed ==> Valid() && CanAllocate(u, View(), id)
      ensures var m := Get(old(payload), id); EndsClean(kernel, m, read && gone, deleted, freed) ==> Valid()
      ensures var m := Get(old(payload), id); clean && !EndsClean(kernel, m, read && gone, deleted, freed) ==> !Valid()
      ensures var m := Get(old(payload), id);
        freed && !(read && gone) && m.Some? && m.value in kernel ==> Poisoned(View(), kernel[m.value])
    {
      hide DistinctShorts, Inv, HoldsNothing, Building, Poisoned, HandsOverClean, AnyStep, Step, Possible, Apply;
      ghost var m := Get(payload, id);
      read := ReadPayload(id);
      Interfere(Some(id), None);
      gone := DestroyOwn(id);
      Interfere(Some(id), None);
      deleted := DropPayload(id);
      Interfere(Some(id), None);
      RetiredStays(u, View(), id);
      if m.Some? && !(read && gone) {
        LeftFacts(u, View(), id);
      }
      ghost var before := View();
      freed := FreeSlot(id);
      FreeFacts(u, before, id, m, read && gone, deleted, freed);
    }
  }
}
