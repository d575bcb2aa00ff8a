/** Network slots and namespaces of the NATID path as a step system: prebuild, adopt, slow build and release in small
    steps, a crash between any two of them, and the boot sequence (network/natid.go, cmd/agent/main.go). */
module NetMachine {
  import opened Bytes
  import opened SlotStores

  /** ns-p<idx>, ns-<short sandbox id>, or a namespace this agent did not make. */
  datatype NsName = Pre(idx: nat) | Sbx(short: string) | Other(name: string)

  /** shortHex: the first ten characters that are not dashes. */
  function NoDashes(id: Id): string {
    if id == [] then [] else (if id[0] == '-' then [] else [id[0]]) + NoDashes(id[1..])
  }

  function ShortHex(id: Id): string {
    var clean := NoDashes(id);
    if |clean| > 10 then clean[..10] else clean
  }

  function NsOf(id: Id): NsName { Sbx(ShortHex(id)) }

  /** A pre-built slot on its way to the free list, on it, or taken from it by a sandbox. */
  datatype PoolPc = Claimed | Cleared | Built | Broken | Parked | PoppedBy(id: Id)

  /** Where a sandbox's allocate or release is. A release carries what it read of its payload row, and the namespace its
      sandbox still has, whether or not the release knows. */
  datatype Pc =
    | Popped(idx: nat) | Adopted(idx: nat)
    | SlowClaimed(idx: nat) | SlowCleared(idx: nat) | SlowBuilt(idx: nat) | SlowBroken(idx: nat)
    | RelRead(name: Option<NsName>, left: Option<NsName>) | RelDestroyed(left: Option<NsName>) | RelDeleted(left: Option<NsName>)

  /** Boot: recover, list the live rows, reconcile, read the keep-set, list the namespaces, sweep, run. The agent runs on
      (`clean` false) when a listing or the keep-set could not be read, or a namespace could not be removed. */
  datatype Phase =
    | Down | Recovering | Listed(ids: set<Id>) | Reconciled(ids: set<Id>)
    | Kept(ids: set<Id>, keep: set<NsName>) | Sweeping(ids: set<Id>, keep: set<NsName>, todo: set<NsName>, clean: bool)
    | Running(clean: bool)

  /** rows, kernel, payload and live outlive the agent process; pool, procs and phase do not. payload and live also
      outlive a reboot of the host.
      `retired`: ids whose payload row a boot found without a sandbox row; they are never used again. */
  datatype Net = Net(
    rows: Rows,
    kernel: map<NsName, nat>,
    payload: map<Id, NsName>,
    live: set<Id>,
    retired: set<Id>,
    pool: map<nat, PoolPc>,
    procs: map<Id, Pc>,
    phase: Phase)

  /** `ok` false: the payload read (RelBegin), the payload delete (RelDelete), the ledger's answer (Adopt, BuildAbort,
      SlowAbort, RelFree) or the removal of the namespace (SweepOne, BuildFail, SlowFail, RelDestroy) failed. The code
      takes its next step all the same. An adoption that is not granted removes the namespace (`gone` if that works) and goes
      on to the slow path. */
  datatype Event =
    | Crash | HostReboot
    | BootStart | ListLive | DoReconcile | ReconcileFail | KeepSet | ListNs | SweepOne(name: NsName, ok: bool) | SweepDone | NoSweep
    | InsertRow(id: Id) | DeleteRow(id: Id)
    | PrebuildClaim | BuildClear(i: nat) | BuildAdd(i: nat) | BuildFail(i: nat, ok: bool) | BuildAbort(i: nat, ok: bool) | Park(i: nat)
    | Pop(id: Id, i: nat) | Adopt(id: Id, ok: bool, gone: bool) | SaveFast(id: Id)
    | SlowClaim(id: Id) | SlowClear(id: Id) | SlowAdd(id: Id) | SlowFail(id: Id, ok: bool) | SlowAbort(id: Id, ok: bool)
    | SlowSave(id: Id)
    | RelBegin(id: Id, ok: bool) | RelDestroy(id: Id, ok: bool) | RelDelete(id: Id, ok: bool) | RelFree(id: Id, ok: bool)

  function Get(m: map<Id, NsName>, id: Id): Option<NsName> { if id in m then Some(m[id]) else None }

  predicate IsNs(m: NsName) { !m.Other? }

  predicate Owns(n: Net, id: Id, i: nat) { i < |n.rows| && n.rows[i] == Some(Sandbox(id)) }

  /** What callers of AllocateNATID make true by releasing first. */
  predicate HoldsNothing(n: Net, id: Id) {
    id !in n.payload && forall i :: 0 <= i < |n.rows| ==> n.rows[i] != Some(Sandbox(id))
  }

  predicate CanStart(u: set<Id>, n: Net, id: Id) { n.phase.Running? && id in u && id !in n.procs && id !in n.retired }

  predicate CanAllocate(u: set<Id>, n: Net, id: Id) { CanStart(u, n, id) && HoldsNothing(n, id) }

  /** No sandbox in use has an adopted slot on record. */
  predicate NoAdoptedRows(n: Net) { forall id :: id in n.payload && id !in n.retired ==> !n.payload[id].Pre? }

  /** An allocation starts from nothing, and a reboot of the host, which empties the ledger and the kernel but not the
      payload table, finds no adopted slot on record. */
  predicate CallersCareful(n: Net, e: Event) {
    && (e.Pop? || e.SlowClaim? ==> HoldsNothing(n, e.id))
    && (e.HostReboot? ==> NoAdoptedRows(n))
  }

  /** Who gives up a slot leaves no namespace on it and no record of an adopted one. When the ledger fails and the slot
      stays, a namespace that is left must still be on record. */
  predicate HandsOverClean(n: Net, e: Event) {
    match e
    case BuildAbort(i, ok) => ok ==> Pre(i) !in n.kernel
    case SlowAbort(id, _) => NsOf(id) !in n.kernel
    case RelFree(id, ok) =>
      id in n.procs && n.procs[id].RelDeleted? ==>
        var left := n.procs[id].left;
        && (left.Some? && left.value in n.kernel ==> !ok && Get(n.payload, id) == left)
        && (ok && id in n.payload ==> !n.payload[id].Pre?)
    case _ => true
  }

  /** What the code does not check and the guarantees need. */
  predicate Careful(n: Net, e: Event) { CallersCareful(n, e) && HandsOverClean(n, e) }

  predicate Enabled(u: set<Id>, n: Net, e: Event) { Possible(u, n, e) && Careful(n, e) }

  predicate Possible(u: set<Id>, n: Net, e: Event) {
    match e
    case Crash => true
    case HostReboot => true
    case BootStart => n.phase.Down?
    case ListLive => n.phase.Recovering?
    case DoReconcile => n.phase.Listed?
    case ReconcileFail => n.phase.Listed?
    case KeepSet => n.phase.Reconciled?
    case ListNs => n.phase.Kept?
    case SweepOne(m, _) => n.phase.Sweeping? && m in n.phase.todo
    case SweepDone => n.phase.Sweeping? && n.phase.todo == {}
    case NoSweep => n.phase.Recovering? || n.phase.Reconciled? || n.phase.Kept?
    case InsertRow(id) => n.phase.Running? && id in u && id !in n.retired
    case DeleteRow(id) => id !in n.procs
    case PrebuildClaim => n.phase.Running? && Lowest(n.rows, None, 0) < |n.rows|
    case BuildClear(i) => i in n.pool && n.pool[i].Claimed?
    case BuildAdd(i) => i in n.pool && n.pool[i].Cleared?
    case BuildFail(i, _) => i in n.pool && (n.pool[i].Claimed? || n.pool[i].Cleared? || n.pool[i].Built?)
    case BuildAbort(i, _) => i in n.pool && n.pool[i].Broken?
    case Park(i) => i in n.pool && n.pool[i].Built?
    case Pop(id, i) => CanStart(u, n, id) && i in n.pool && n.pool[i].Parked?
    case Adopt(id, _, _) => id in n.procs && n.procs[id].Popped? && n.procs[id].idx < |n.rows|
    case SaveFast(id) => id in n.procs && n.procs[id].Adopted?
    case SlowClaim(id) => CanStart(u, n, id) && ClaimIdx(n.rows, id).Some?
    case SlowClear(id) => id in n.procs && n.procs[id].SlowClaimed?
    case SlowAdd(id) => id in n.procs && n.procs[id].SlowCleared?
    case SlowFail(id, _) => id in n.procs && (n.procs[id].SlowClaimed? || n.procs[id].SlowCleared? || n.procs[id].SlowBuilt?)
    case SlowAbort(id, _) => id in n.procs && n.procs[id].SlowBroken?
    case SlowSave(id) => id in n.procs && n.procs[id].SlowBuilt?
    case RelBegin(id, _) =>
      id in u && id !in n.procs && id !in n.retired && !n.phase.Down? && (n.phase.Running? || id in n.live)
    case RelDestroy(id, _) => id in n.procs && n.procs[id].RelRead?
    case RelDelete(id, _) => id in n.procs && n.procs[id].RelDestroyed?
    case RelFree(id, _) => id in n.procs && n.procs[id].RelDeleted?
  }

  function Destroy(n: Net, m: NsName): Net { n.(kernel := n.kernel - {m}) }

  function Remove(n: Net, m: NsName, ok: bool): Net { if ok then Destroy(n, m) else n }

  function SetProc(n: Net, id: Id, pc: Pc): Net { n.(procs := n.procs[id := pc]) }

  function EndProc(n: Net, id: Id): Net { n.(procs := n.procs - {id}) }

  function SetPool(n: Net, i: nat, pc: PoolPc): Net { n.(pool := n.pool[i := pc]) }

  function Apply(u: set<Id>, n: Net, e: Event): Net
    requires Possible(u, n, e)
  {
    match e
    case Crash => n.(pool := map[], procs := map[], phase := Down)
    case HostReboot =>
      n.(rows := seq(|n.rows|, _ => None), kernel := map[], pool := map[], procs := map[], phase := Down)
    case BootStart => n.(phase := Recovering)
    case ListLive => n.(phase := Listed(n.live))
    case DoReconcile =>
      n.(rows := Reconcile(n.rows, n.phase.ids), retired := n.retired + (n.payload.Keys - n.phase.ids), phase := Reconciled(n.phase.ids))
    case ReconcileFail => n.(phase := Reconciled(n.phase.ids))
    case KeepSet =>
      n.(phase := Kept(n.phase.ids, set id | id in n.phase.ids && id in n.payload :: n.payload[id]))
    case ListNs =>
      n.(phase := Sweeping(n.phase.ids, n.phase.keep, set m | m in n.kernel && IsNs(m) && m !in n.phase.keep, true))
    case SweepOne(m, ok) =>
      Remove(n, m, ok).(phase := n.phase.(todo := n.phase.todo - {m}, clean := n.phase.clean && (ok || m !in n.kernel)))
    case SweepDone => n.(phase := Running(n.phase.clean))
    case NoSweep => n.(phase := Running(false))
    case InsertRow(id) => n.(live := n.live + {id})
    case DeleteRow(id) => n.(live := n.live - {id})
    case PrebuildClaim =>
      var i := Lowest(n.rows, None, 0);
      SetPool(n.(rows := n.rows[i := Some(Prebuilt(i))]), i, Claimed)
    case BuildClear(i) => SetPool(Destroy(n, Pre(i)), i, Cleared)
    case BuildAdd(i) => SetPool(n.(kernel := n.kernel[Pre(i) := i]), i, Built)
    case BuildFail(i, ok) => SetPool(Remove(n, Pre(i), ok), i, Broken)
    case BuildAbort(i, ok) => n.(rows := if ok then Release(n.rows, Prebuilt(i)) else n.rows, pool := n.pool - {i})
    case Park(i) => SetPool(n, i, Parked)
    case Pop(id, i) => SetProc(SetPool(n, i, PoppedBy(id)), id, Popped(i))
    case Adopt(id, ok, gone) =>
      var i := n.procs[id].idx;
      if ok && n.rows[i] == Some(Prebuilt(i)) then
        SetProc(n.(rows := n.rows[i := Some(Sandbox(id))], pool := n.pool - {i}), id, Adopted(i))
      else EndProc(Remove(n, Pre(i), gone).(pool := n.pool - {i}), id)
    case SaveFast(id) => EndProc(n.(payload := n.payload[id := Pre(n.procs[id].idx)]), id)
    case SlowClaim(id) =>
      var i := ClaimIdx(n.rows, id).value;
      SetProc(n.(rows := n.rows[i := Some(Sandbox(id))]), id, SlowClaimed(i))
    case SlowClear(id) => SetProc(Destroy(n, NsOf(id)), id, SlowCleared(n.procs[id].idx))
    case SlowAdd(id) => SetProc(n.(kernel := n.kernel[NsOf(id) := n.procs[id].idx]), id, SlowBuilt(n.procs[id].idx))
    case SlowFail(id, ok) => SetProc(Remove(n, NsOf(id), ok), id, SlowBroken(n.procs[id].idx))
    case SlowAbort(id, ok) => EndProc(n.(rows := if ok then Release(n.rows, Sandbox(id)) else n.rows), id)
    case SlowSave(id) => EndProc(n.(payload := n.payload[id := NsOf(id)]), id)
    case RelBegin(id, ok) => SetProc(n, id, RelRead(if ok then Get(n.payload, id) else None, Get(n.payload, id)))
    case RelDestroy(id, ok) =>
      var m := n.procs[id].name;
      if m.Some? && ok then SetProc(Destroy(n, m.value), id, RelDestroyed(None))
      else SetProc(n, id, RelDestroyed(n.procs[id].left))
    case RelDelete(id, ok) => SetProc(if ok then n.(payload := n.payload - {id}) else n, id, RelDeleted(n.procs[id].left))
    case RelFree(id, ok) => EndProc(n.(rows := if ok then Release(n.rows, Sandbox(id)) else n.rows), id)
  }

  function Step(u: set<Id>, n: Net, e: Event): Net { if Enabled(u, n, e) then Apply(u, n, e) else n }

  function Exec(u: set<Id>, n: Net, es: seq<Event>): Net {
    if es == [] then n else Step(u, Exec(u, n, es[..|es| - 1]), es[|es| - 1])
  }

  // Runs without care.

  function AnyStep(u: set<Id>, n: Net, e: Event): Net { if Possible(u, n, e) then Apply(u, n, e) else n }

  function AnyExec(u: set<Id>, n: Net, es: seq<Event>): Net {
    if es == [] then n else AnyStep(u, AnyExec(u, n, es[..|es| - 1]), es[|es| - 1])
  }

  function NewHost(capacity: nat): Net {
    Net(seq(capacity, _ => None), map[], map[], {}, {}, map[], map[], Down)
  }

  // ---- invariant ----

  /** No two sandboxes of the run abbreviate to the same namespace name. */
  ghost predicate DistinctShorts(u: set<Id>) {
    forall a, b :: a in u && b in u && ShortHex(a) == ShortHex(b) ==> a == b
  }

  ghost predicate KernelOk(n: Net) {
    forall m :: m in n.kernel && IsNs(m) ==> n.kernel[m] < |n.rows| && (m.Pre? ==> n.kernel[m] == m.idx)
  }

  /** m is id's to destroy, and if it exists it sits on id's own slot. */
  ghost predicate Mine(n: Net, id: Id, m: NsName) {
    && (match m
        case Pre(i) => Owns(n, id, i)
        case Sbx(s) => s == ShortHex(id)
        case Other(_) => false)
    && (m in n.kernel ==> Owns(n, id, n.kernel[m]))
  }

  ghost predicate PayloadOk(u: set<Id>, n: Net) {
    forall id :: id in n.payload && id !in n.retired ==> id in u && Mine(n, id, n.payload[id])
  }

  ghost predicate PoolOk(n: Net) {
    forall i :: i in n.pool ==>
      && i < |n.rows| && n.rows[i] == Some(Prebuilt(i))
      && (n.pool[i].Built? || n.pool[i].Parked? || n.pool[i].PoppedBy? ==> Pre(i) in n.kernel)
      && (n.pool[i].PoppedBy? ==> n.pool[i].id in n.procs && n.procs[n.pool[i].id] == Popped(i))
  }

  ghost predicate ProcOk(u: set<Id>, n: Net, id: Id, pc: Pc) {
    && id in u && id !in n.retired
    && match pc
       case Popped(i) => i in n.pool && n.pool[i] == PoppedBy(id) && HoldsNothing(n, id)
       case Adopted(i) => Owns(n, id, i) && id !in n.payload && Pre(i) in n.kernel
       case SlowClaimed(i) => Owns(n, id, i) && id !in n.payload
       case SlowCleared(i) => Owns(n, id, i) && id !in n.payload
       case SlowBuilt(i) => Owns(n, id, i) && id !in n.payload && NsOf(id) in n.kernel && n.kernel[NsOf(id)] == i
       case SlowBroken(i) => Owns(n, id, i) && id !in n.payload
       case RelRead(name, left) => left == Get(n.payload, id) && (name == left || name.None?)
       case RelDestroyed(left) => if left.Some? then left == Get(n.payload, id) else Gone(n, id)
       case RelDeleted(left) =>
         && (left.Some? ==> Mine(n, id, left.value))
         && (id in n.payload ==> left == Get(n.payload, id) || Gone(n, id))
  }

  /** What id's payload row names, if there is one, does not exist. */
  ghost predicate Gone(n: Net, id: Id) { id in n.payload ==> n.payload[id] !in n.kernel }

  ghost predicate ProcsOk(u: set<Id>, n: Net) { forall id :: id in n.procs ==> ProcOk(u, n, id, n.procs[id]) }

  /** The one namespace a sandbox may have right now. */
  function Current(n: Net, id: Id): Option<NsName> {
    if id in n.procs then
      match n.procs[id]
      case Popped(_) => None
      case Adopted(i) => Some(Pre(i))
      case SlowClaimed(_) => Some(NsOf(id))
      case SlowCleared(_) => Some(NsOf(id))
      case SlowBuilt(_) => Some(NsOf(id))
      case SlowBroken(_) => Some(NsOf(id))
      case RelRead(_, left) => left
      case RelDestroyed(left) => left
      case RelDeleted(left) => left
    else Get(n.payload, id)
  }

  /** Namespace m on slot i is the one the slot's owner accounts for. */
  ghost predicate Accounted(n: Net, m: NsName, i: nat) {
    && i < |n.rows| && n.rows[i].Some?
    && match n.rows[i].value
       case Prebuilt(k) => m == Pre(k)
       case Sandbox(id) => Current(n, id) == Some(m)
  }

  ghost predicate Clean(n: Net) {
    forall m :: m in n.kernel && IsNs(m) ==> Accounted(n, m, n.kernel[m])
  }

  ghost predicate Backed(n: Net, ids: set<Id>, m: NsName) {
    exists id :: id in ids && Current(n, id) == Some(m)
  }

  ghost predicate KeepOk(n: Net, ids: set<Id>, keep: set<NsName>) {
    && (forall id :: id in ids && id in n.payload ==> n.payload[id] in keep)
    && (forall m :: m in keep && m in n.kernel ==> Backed(n, ids, m))
  }

  ghost predicate RetiredOwnNothing(n: Net) {
    forall i :: 0 <= i < |n.rows| && n.rows[i].Some? && n.rows[i].value.Sandbox? ==> n.rows[i].value.id !in n.retired
  }

  /** Before the sweep is over only releases run, and only of sandboxes with a row. */
  ghost predicate BootOk(n: Net) {
    && n.live !! n.retired && RetiredOwnNothing(n)
    && (!n.phase.Running? ==>
      && n.pool == map[]
      && forall id :: id in n.procs ==> id in n.live && (n.procs[id].RelRead? || n.procs[id].RelDestroyed? || n.procs[id].RelDeleted?))
    && match n.phase
       case Down => n.procs == map[]
       case Recovering => true
       case Listed(ids) => n.live <= ids && ids !! n.retired
       case Reconciled(ids) => n.live <= ids && ids !! n.retired
       case Kept(ids, keep) => n.live <= ids && ids !! n.retired && KeepOk(n, ids, keep)
       case Sweeping(ids, keep, todo, clean) =>
         && n.live <= ids && ids !! n.retired && KeepOk(n, ids, keep)
         && todo !! keep && (forall m :: m in todo ==> IsNs(m))
         && (clean ==> forall m :: m in n.kernel && IsNs(m) ==> m in keep || m in todo)
       case Running(clean) => clean ==> Clean(n)
  }

  ghost predicate Inv(u: set<Id>, n: Net) {
    SingleOwner(n.rows) && KernelOk(n) && PayloadOk(u, n) && PoolOk(n) && ProcsOk(u, n) && BootOk(n)
  }
}
